# Konsul: a verified model

Konsul is a service registry and key-value store with replication, watches, rate limits and access policies. This
project models its data structures and protocols in Dafny and proves what they are there for. `dafny verify
dfyconfig.toml` checks all of it.

| files | what they model |
|---|---|
| `SmoothWrr`, `PlainPicks`, `Connections`, `HashRing`, `RingCache`, `RingInputs`, `Balancer` | load balancing: smooth weighted round-robin, round-robin, weighted random, least connections, the consistent-hash ring, its cache, and the lists the registry hands to it |
| `Kv`, `KvGuards`, `KvRuns`, `KvReplication`, `KvDeterminism`, `KvRestore`, `KvStore` | the key-value store: one specification of all operations on values, what every run of them keeps, replicas, snapshots and restores, and the store object whose methods refine the specification |
| `Watch`, `WatchDelivery`, `WatchRuns`, `WatchManager`, `KvEvents`, `WatchMirror` | the watch registry with its bounded channels, whole runs of it, the events of each operation, and the stream as a mirror of the store |
| `Persistence`, `KvDurability`, `ServiceDurability` | the memory engine, its transactions, and restart recovery |
| `ServiceTypes`, `ServiceModel`, `ServiceEffects`, `ServiceVersions`, `ServiceRuns`, `ServiceRestarts`, `ServiceIndex`, `ServiceQuery`, `ServiceStore` | the service registry, what every run of it keeps, its two secondary indexes edited in place, and the indexed queries |
| `Fsm`, `FsmReplicas` | the replicated state machine over both stores, and the exact conditions for its replicas and restores |
| `TokenBucket`, `LimiterLedger`, `LimiterResets`, `RateLimiter` | the lazy-refill limiter, its verdicts in plain arithmetic, manual interventions, and the store of limiters |
| `Glob`, `GlobPatterns`, `GlobMeaning`, `GlobRules`, `AclEvaluator` | the glob compiler, the meaning of what it emits, and the policy evaluator |
| `Prelude`, `Sorting` | small shared vocabulary |

Objects that the program updates in place are classes whose methods refine functions on values; the theorems about runs,
replicas and restarts are about those functions. What the program takes from outside is an explicit input: the order in
which a Go map is visited, clock readings, random draws, the hash, the codec, fresh watcher ids, and the permission check
of the watch manager.

## What turned out not to hold

- A restored store's counter is the largest live index. When the newest entry was deleted it falls, indices are handed
  out again, and the no-ABA guarantee is lost, for keys (`KvRestore.AbaAfterRestore`) and for services
  (`ServiceRuns.AbaAfterRestore`). A restart of the registry drops expired services too, and then loses the guarantee when
  the newest one has expired. `NoAbaAcrossRestoreIff`, `NoAbaAcrossRestartIff`, `RestoreIsInvisibleIff` and
  `RestartIsInvisibleIff` say exactly when it does not matter. The pair in `internal/store/snapshot.go` saves the counter
  and keeps the guarantee.
- Replicas number the keys of a batch in their own map order, so a later compare-and-swap can be answered differently, in
  every state and for every batch of two keys (`BatchOrderBreaksCas`); `LogIsDeterministicIff` gives the exact condition.
- The ring cache compares virtual nodes with instances, so a ring is reused for the list it was built from exactly when
  that list has as many different node hashes as instances (`OwnListIsReusedIff`): never when no hashes collide. A virtual
  node's name joins name and address with a colon that either may contain, so instances can share all their nodes
  (`ColonTwins`), and a reused ring can route past the end of the list (`OverflowIsReachable`); `RunsStayInsideIff` gives
  the exact condition.
- A connection counter is kept under a text that joins name, address and the port as one character. Services whose texts
  coincide share it (`ColonTwins`); `SharedCounterIff` and `CountsItsOwnIff` give the exact conditions.
- `policies/README.md` promises that an explicit deny wins, and that the first matching rule decides. The evaluator stops
  at the first rule that denies or grants; `ExplicitDenyWinsIff` and `FirstMatchDecidesIff` say exactly when the promises
  are kept.
- A compare-and-swap batch delete that lists a key twice reports an empty old value (`OldValuesAreFaithfulIff`).
- Patterns with `|`, `^` or `$` lose their glob meaning, and so do those that contain the compiler's placeholder, or the
  placeholder with two stars for its last sign (`KvRuleMeaningIff`, `MentionedPlaceholderAcceptsMore`).

## Model

| member | source | states |
|---|---|---|
| SmoothWrr.PickIsPositive | internal/loadbalancer/strategies.go:53-67 | From any vector that sums to zero, the entry that is picked is positive after the weights are added, so the 32-bit minimum the scan starts from never decides |
| SmoothWrr.StepKeepsBalance | internal/loadbalancer/strategies.go:55-67 | One pick keeps the sum at zero and every entry strictly above minus any bound that is at least the total weight |
| SmoothWrr.VectorBalanced | internal/loadbalancer/strategies.go:42-68 | After any number of picks with fixed weights the vector sums to zero and every entry is above minus the total weight |
| SmoothWrr.Ledger | internal/loadbalancer/strategies.go:42-68 | Conservation: an entry equals picks so far times its weight minus the total weight times how often it was picked |
| SmoothWrr.PickCountBounds | internal/loadbalancer/strategies.go:42-68 | After t picks, n instances: the count of an instance is strictly between t*w/W - (n-1) and t*w/W + 1 |
| SmoothWrr.CycleReturnsToZero | internal/loadbalancer/strategies.go:42-68 | W picks from the zero vector bring every entry back to zero |
| SmoothWrr.Periodic | internal/loadbalancer/strategies.go:42-68 | The run of vectors and picks has period W, from every starting point |
| SmoothWrr.ExactInEveryWindow | internal/loadbalancer/strategies.go:42-70 | Any W consecutive picks, wherever they start, return instance i exactly weight_i times and restore the vector |
| SmoothWrr.CycleBoundary | internal/loadbalancer/strategies.go:42-70 | Every multiple of W picks ends in the all-zero vector |
| SmoothWrr.CallKeepsBalance | internal/loadbalancer/strategies.go:42-68 | One call for any service name, weights and member count keeps every stored vector at sum zero and above the bound, whether the stored vector is used or replaced by zeros |
| SmoothWrr.EveryRunIsBalanced | internal/loadbalancer/strategies.go:42-68 | Over every run of calls, weights and members changing at will, every stored vector sums to zero and stays above minus the largest total seen |
| SmoothWrr.NextPickIsTrueMaximum | internal/loadbalancer/strategies.go:53-64 | After every such run the next pick is the first true maximum of the raised vector and is positive |
| SmoothWrr.FixedWeightsFollowTheRun | internal/loadbalancer/strategies.go:47-68 | Calls for other names may be interleaved: a name with fixed weights, two of which differ, goes through exactly the fixed-weight run, so the cycle results above apply to it |
| SmoothWrr.SameOrDiffer | internal/loadbalancer/strategies.go:199-210 | The test before a weighted pick is true exactly when no two weights differ |
| Balancer.Advance | internal/loadbalancer/strategies.go:53-67 | The raise-scan-charge loop computes the specified step: the stored vector and the first maximum, for every zero-sum start |
| Balancer.Balancer.SelectWeightedRoundRobin | internal/loadbalancer/strategies.go:23-71 | When two weights differ: the pick is the first maximum of the stored vector (zeros when none of that length is stored) with the weights added, the total is taken off that entry, and the round-robin counters stay; when no two differ it is a plain round-robin pick and the vectors stay; either way every vector still sums to zero |
| Balancer.Balancer.SelectRoundRobin | internal/loadbalancer/balancer.go:152-168 | The pick is the counter of the name, 0 at first, modulo the instance count, and only that counter advances, by one |
| PlainPicks.HitsOncePerRound | internal/loadbalancer/balancer.go:163-167 | Any n consecutive counter values pick each of n positions exactly once |
| PlainPicks.RoundRobinIsFair | internal/loadbalancer/balancer.go:163-167 | Any window of L picks picks each position floor(L/n) or ceil(L/n) times |
| PlainPicks.SelectsAtMostOne | internal/loadbalancer/strategies.go:96-104 | A draw selects at most one instance |
| PlainPicks.WeightedDrawsAreExact | internal/loadbalancer/strategies.go:94-104 | Exactly weight_i of the W possible draws select instance i |
| Balancer.Balancer.SelectWeightedRandom | internal/loadbalancer/strategies.go:74-108 | When two weights differ, every draw below W returns the instance whose cumulative stretch holds it, and the fallback after the loop is unreachable; when no two differ the uniform draw decides |
| Balancer.ExtractWeight | internal/loadbalancer/strategies.go:180-196 | A weight is always positive |
| Balancer.WeightIsSpelled | internal/loadbalancer/strategies.go:180-196 | The weight is the positive 64-bit number that the metadata spells in decimal, with or without a plus sign; when it spells none or is missing, the weight is 1 |
| Balancer.PrintedWeightIsRead | internal/loadbalancer/strategies.go:180-196 | Round trip: the decimal text of a positive 64-bit number is read back as that number |
| ServiceTypes.ItoaRoundTrip | internal/loadbalancer/strategies.go:185-190 | Printing a number in decimal and reading the digits gives the number back |
| Balancer.Balancer.SelectLeastConnections | internal/loadbalancer/balancer.go:177-203 | Returns the first instance whose counter is the smallest; the only change is zero counters for key texts that had none |
| Balancer.Balancer.IncrementConnections | internal/loadbalancer/balancer.go:212-224 | Raises the counter under the key text of the instance by one, no other, and keeps all counters non-negative |
| Balancer.Balancer.DecrementConnections | internal/loadbalancer/balancer.go:228-242 | Lowers the counter under the key text of the instance by one, no other, never below zero |
| Connections.SharedCounterIff | internal/loadbalancer/balancer.go:206-208 | Two services have one key text exactly when name and address are the same, or a colon moved between them, and the ports are the same in their low 32 bits or both print as U+FFFD |
| Connections.CountersAreInFlight | internal/loadbalancer/balancer.go:206-242 | Over every history in which the services of a key text never finish more than they started, its counter is exactly their requests in flight, taken together |
| Connections.CountsItsOwnIff | internal/loadbalancer/balancer.go:206-242 | Whatever the traffic to a pool of services, the counter of one tells its own requests in flight exactly when no other instance in the pool has its key text |
| HashRing.BuildRing | internal/loadbalancer/strategies.go:268-294 | A fresh ring holds exactly the hashes of the 150 virtual nodes per instance, sorted, each owned by the last instance that has it, one node for each different hash |
| HashRing.Lookup | internal/loadbalancer/strategies.go:139-152 | The binary search finds the least node at or after the key, wrapping to the smallest |
| HashRing.RoutesToOne | internal/loadbalancer/strategies.go:139-153 | A key is routed to one instance only |
| HashRing.RemovalMovesOnlyOwnedKeys | internal/loadbalancer/strategies.go:127-154 | Removing an instance leaves every key it did not own where it was; collisions allowed |
| HashRing.AdditionMovesKeysOnlyToNew | internal/loadbalancer/strategies.go:127-154 | Adding an instance at any position moves keys to the new instance only; collisions allowed |
| HashRing.EarlierTwinGetsNothing | internal/loadbalancer/strategies.go:276-285 | Of the instances whose name, colon and address read the same only the last one in the list is ever routed to |
| HashRing.RingSize | internal/loadbalancer/strategies.go:268-294 | A ring has one node for each different hash of its list |
| HashRing.NodeCountBounds | internal/loadbalancer/strategies.go:268-294 | That is at most 150 for each instance, exactly as many when no two hashes collide, and never none |
| HashRing.NodeKeyTells | internal/loadbalancer/strategies.go:276-279 | The name of a virtual node determines the name-and-address text and the replica |
| Balancer.Balancer.GetOrCreateRing | internal/loadbalancer/strategies.go:257-295 | Reuses the cached ring exactly when its node count equals the instance count, otherwise builds and caches a ring of the given instances |
| Balancer.Balancer.SelectRingHash | internal/loadbalancer/strategies.go:127-154 | With a fresh ring the key goes to the instance that owns its successor; with a reused ring to the position the ring's own list gives it, or past the end of the list (`None`, a panic) when there is no such position |
| RingCache.StaysInsideIff | internal/loadbalancer/strategies.go:139-153 | A ring built from one list routes no session key past the end of another exactly when the other is not shorter |
| RingCache.OwnListIsReusedIff | internal/loadbalancer/strategies.go:262-265 | A ring is reused for the list it was built from exactly when that list has as many different node hashes as instances |
| RingCache.ReuseStaysInsideIff | internal/loadbalancer/strategies.go:262-265 | A reused ring stays inside the present list exactly when its own list has at least as many different node hashes as instances |
| RingCache.CacheReuseCondition | internal/loadbalancer/strategies.go:262-265 | With collision-free hashes a ring is reused exactly for lists 150 times as long as its own, so never for its own list, and then stays inside |
| RingCache.SharedTextOverflows | internal/loadbalancer/strategies.go:262-265 | A ring built from more than 150 instances that share one node text sends every key past the end of every list it is reused for |
| RingCache.RoomyRunsStayInside | internal/loadbalancer/strategies.go:127-154 | Over every run of calls on lists with at least as many different node hashes as instances, with any names, lists and keys, no call is routed past the end |
| RingCache.CrampedListOverflows | internal/loadbalancer/strategies.go:127-154 | For every list with fewer there is a run of two calls, the second on any list as long as the ring of the first, that routes past the end |
| RingCache.RunsStayInsideIff | internal/loadbalancer/strategies.go:127-154 | So for every pool of lists that has the lengths of its own rings: no run routes past the end exactly when every list of the pool has at least as many different node hashes as instances |
| RingCache.CollisionFreeRunsStayInside | internal/loadbalancer/strategies.go:127-154 | Lists without collisions have them, so their runs stay inside |
| RingInputs.ColonTwins | internal/loadbalancer/strategies.go:276-285 | A colon moved between name and address gives two services that can both be registered and are returned by one query; they share their virtual nodes and their connection counter, and whatever the hash the first of them gets no key |
| RingInputs.SharedTextIsReachable | internal/loadbalancer/strategies.go:276-285 | For every number there is a query result of that length, all names different, whose instances share their virtual nodes |
| RingInputs.OverflowIsReachable | internal/loadbalancer/strategies.go:257-295 | Whatever the hash, one history of the registry suffices: a call on the result of a query, removals, and every keyed call on the result of the same query is sent past the end; all names in a result are different |
| RingInputs.OwnListIsReused | internal/loadbalancer/strategies.go:262-265 | A ring is reused for its own list: a query result of 150 services with one node text, exactly when the hash keeps the 150 nodes of one of them apart |
| Kv.PutAllContents | internal/store/kv.go:1034-1060 | A batch of different keys gets consecutive indices in visiting order, keeps create indices and flags of existing keys, and touches nothing else |
| Kv.RemoveAllContents | internal/store/kv.go:1102-1112 | A batch delete removes exactly the listed keys, repeated or not, and keeps the counter |
| Kv.NewIndicesContents | internal/store/kv.go:923-945 | The reply of a batch names each key once with consecutive indices from the old counter |
| Kv.CheckSetAllIff | internal/store/kv.go:893-918 | The first pass of a batch compare-and-swap passes exactly when every item's condition holds |
| Kv.CheckDeleteAllIff | internal/store/kv.go:972-988 | The same for deletes: every key exists and has the expected index |
| KvGuards.SetCasIff | internal/store/kv.go:792-850 | A guarded set goes through exactly when the key has the expected index, or is absent for index 0; it then stores the value under the next index and answers it; otherwise nothing changes and the refusal names the present index, or that there is none |
| KvGuards.DeleteCasIff | internal/store/kv.go:853-885 | A guarded delete goes through exactly when the key is there with the expected index, and takes it away; otherwise the same refusals |
| KvGuards.BatchSetCasIff | internal/store/kv.go:888-964 | A guarded batch set goes through exactly when every item meets that condition, a missing expected index counting as 0; otherwise nothing changes and the refusal is that of an item that does not |
| KvGuards.BatchDeleteCasIff | internal/store/kv.go:967-1011 | A guarded batch delete goes through exactly when every listed key is there with its expected index, and takes away exactly the listed keys |
| Kv.StepEffect | internal/store/kv.go:136-705 | Every operation, key by key: written keys hold the command's value and flags under fresh pairwise different indices and keep their create index, deleted keys go, all other entries stay, the counter never falls |
| Kv.BatchEffect | internal/store/kv.go:1028-1073 | Whatever the iteration order of the batch, the outcome differs at most in which of the block's indices each key has |
| KvRuns.StepKeepsWellIndexed | internal/store/kv.go:136-705 | Every operation keeps 1 <= create <= modify <= counter and pairwise different modify indices |
| KvRuns.EveryRunIsWellIndexed | internal/store/kv.go:136-705 | That invariant holds after every run from the empty store |
| KvRuns.CounterNeverFalls | internal/store/kv.go:131-133 | The counter never falls along a run |
| KvRuns.LastWrite | internal/store/kv.go:136-705 | Every live entry was written by a step of the run with its present index and has not been touched since |
| KvRuns.IndexGivenOnce | internal/store/kv.go:131-133 | No index is ever given to two steps or two keys |
| KvRuns.NoAba | internal/store/kv.go:187-264 | If a compare-and-swap (single or batch, set or delete) expecting index e succeeds, an earlier step wrote that very key with index e and nothing touched the key since |
| KvRuns.NoAbaSince | internal/store/kv.go:345-387 | Seen from the write: whoever got index e got it for this key, earlier, and the key is untouched since |
| KvRuns.OneByOneIsBatch | internal/store/kv.go:888-964 | Running the single compare-and-swap on the items in order succeeds exactly when the batch check does and then gives the batch's state |
| KvRuns.BatchCasIsAllOrNothing | internal/store/kv.go:888-964 | The batch succeeds exactly when every condition holds beforehand, whatever the order of either loop; on failure nothing changes and the error is that of some item |
| KvRuns.BatchIndicesAreABlock | internal/store/kv.go:923-963 | A successful batch hands out the block counter+1 .. counter+n one to one, and the reply agrees with what is stored |
| KvReplication.StepAgrees | internal/raft/fsm.go:48-96 | One plain command keeps two agreeing stores in agreement, each with its own batch order |
| KvReplication.ReplicasAgree | internal/raft/fsm.go:48-96 | Same start, same log of plain commands, own batch orders: same keys, values, flags and counter; indices differ only inside one command's block |
| KvReplication.SmallBatchReplicasAreIdentical | internal/raft/fsm.go:48-96 | With batches of at most one item states and replies are identical, compare-and-swap included |
| KvDeterminism.BatchOrderBreaksCas | internal/store/kv.go:1034-1060 | In every state, every batch of two or more keys, in whatever order, has another order after which a compare-and-swap is answered differently |
| KvDeterminism.LogIsDeterministicIff | internal/raft/fsm.go:48-96 | A log has one outcome on all replicas, whatever their batch orders, exactly when every batch in it, in the state it meets, has at most one item or is a compare-and-swap batch refused because of one item only |
| KvDeterminism.PlainLogIsDeterministicIff | internal/raft/fsm.go:48-96 | For logs without compare-and-swap batches: exactly when no batch set has two items |
| KvReplication.GapIsZeroIff | internal/store/kv.go:1157-1167 | Restoring keeps the counter exactly when some live entry carries it, or nothing was ever written |
| KvReplication.StepDrifts | internal/store/kv.go:1150-1170 | One plain command keeps the restored store equal to the original up to the fixed gap in later indices |
| KvReplication.SnapshotPlusSuffix | internal/store/kv.go:1150-1170 | Snapshot plus suffix simulates full replay: same keys, values, flags and earlier indices; later indices and counter lower by the gap, for every suffix of plain commands |
| KvReplication.GapIsVisible | internal/store/kv.go:1157-1167 | With a gap, write-then-swap on the index it should have got succeeds on the original and fails on the restored store |
| KvReplication.RestoreIsInvisibleIff | internal/store/kv.go:1150-1170 | The restored store gives the same states and replies for every suffix, compare-and-swap included, exactly when some live entry carries the counter (or it is 0); replies alone already tell it |
| KvRestore.EveryIndexWasGiven | internal/store/kv.go:131-133 | In every run from the empty store every index from 1 to the counter was given to some key by some step |
| KvRestore.AbaAfterRestore | internal/store/kv.go:1157-1167 | For every run and every index above the largest live one: the key that was given it is rewritten after the restore, and a swap guarded by the index still goes through |
| KvRestore.NoAbaAcrossRestoreIff | internal/store/kv.go:1150-1170 | For every run, the no-ABA guarantee carries across a restore of its end state, for every earlier write and every suffix, exactly when some live entry carries the counter (or it is 0) |
| KvRestore.DeletingTheNewestLosesIt | internal/store/kv.go:1157-1167 | After any run, writing a key and deleting it again is enough to lose the guarantee |
| KvRestore.SavedCounterKeepsGuards | internal/store/snapshot.go:12-33 | The snapshot that saves the counter beside the entries keeps the guarantee after every run |
| KvRestore.RestoredReplicaFollows | internal/store/kv.go:1150-1170 | Snapshot plus suffix with batch orders of its own: same keys, values and flags, later indices lower by the gap up to the order inside one batch |
| KvStore.KVStore.constructor | internal/store/kv.go:34-59 | A store without engine is empty; with an engine it holds what the engine holds, counter at the largest loaded index |
| KvStore.KVStore.LoadFromPersistence | internal/store/kv.go:67-109 | The load loop, in any order, loads every stored pair, old-format values with index 1, and sets the counter to the largest index |
| KvStore.KVStore.Set | internal/store/kv.go:136-181 | Memory, engine and watchers after the call are those of the specified command |
| KvStore.KVStore.SetWithFlags | internal/store/kv.go:267-312 | The same; the flags are replaced, the create index kept |
| KvStore.KVStore.SetCAS | internal/store/kv.go:187-264 | Reply, memory, engine and watchers are those of the specified command; on failure none of them changes |
| KvStore.KVStore.Delete | internal/store/kv.go:315-340 | The key goes from memory and engine; watchers hear of it only if it was there |
| KvStore.KVStore.DeleteCAS | internal/store/kv.go:345-387 | Reply, memory, engine and watchers are those of the specified command; on failure none of them changes |
| KvStore.KVStore.BatchSet | internal/store/kv.go:451-513 | For every pair of map orders, memory, engine and event stream are those of the specified batch |
| KvStore.KVStore.BatchSetCAS | internal/store/kv.go:518-611 | All or nothing in memory, engine and event stream, with the specified reply |
| KvStore.KVStore.BatchDelete | internal/store/kv.go:614-649 | Removes the listed keys everywhere and notifies about those that were there |
| KvStore.KVStore.BatchDeleteCAS | internal/store/kv.go:654-705 | All or nothing; a key listed twice is notified once, with the value its second visit read |
| KvStore.KVStore.SetLocal | internal/store/kv.go:723-754 | The replicated form: memory and watchers only |
| KvStore.KVStore.SetWithFlagsLocal | internal/store/kv.go:758-789 | The replicated form: memory and watchers only |
| KvStore.KVStore.SetCASLocal | internal/store/kv.go:792-850 | Refines the specified command, reply included |
| KvStore.KVStore.DeleteCASLocal | internal/store/kv.go:853-885 | Refines the specified command, reply included |
| KvStore.KVStore.BatchSetCASLocal | internal/store/kv.go:888-964 | Two passes over the map, each in its own order, refine the specified all-or-nothing command |
| KvStore.KVStore.BatchDeleteCASLocal | internal/store/kv.go:967-1011 | Two passes over the keys refine the specified all-or-nothing command |
| KvStore.KVStore.BatchSetLocal | internal/store/kv.go:1028-1073 | The loop over the map, in any order, refines the specified batch |
| KvStore.KVStore.DeleteLocal | internal/store/kv.go:1077-1093 | Removes the key and notifies only if it was there |
| KvStore.KVStore.BatchDeleteLocal | internal/store/kv.go:1097-1125 | Removes the listed keys and notifies about those that were there |
| KvStore.KVStore.GetAllData | internal/store/kv.go:1137-1146 | The copy equals the stored entries, whatever the iteration order |
| KvStore.KVStore.RestoreFromSnapshot | internal/store/kv.go:1150-1170 | The entries become the snapshot's and the counter the largest live modify index |
| KvStore.KVStore.SnapshotState | internal/store/snapshot.go:12-21 | Saves entries and counter as they are |
| KvStore.KVStore.RestoreSnapshot | internal/store/snapshot.go:24-33 | The copying loop, in any order, brings back exactly the saved entries and counter |
| KvEvents.StepMirrors | internal/store/kv.go:136-1125 | Folding the events of any operation over the old values gives the new values, in every delivery order inside a batch |
| KvEvents.OldValuesAreFaithfulIff | internal/store/kv.go:654-705 | The old values in the events are right exactly unless a compare-and-swap batch delete lists a non-empty key twice |
| KvEvents.EventsNameTheChanges | internal/store/kv.go:136-1125 | Every operation notifies once for each key it writes and for each live key it takes away, and about nothing else |
| WatchMirror.SeenFolded | internal/watch/manager.go:134-184 | Folding the events a watcher may see over the values it may see gives what it may see of the result of all events |
| WatchMirror.StreamMirrorsStore | internal/watch/manager.go:134-184 | For a watcher of any pattern under any permissions whose channel never filled: what it took, what is buffered and what concerns it of the pending events, folded over the values it could see at subscription, give those it can see now, at every moment, while other watchers come and go |
| WatchMirror.DrainedReceiverHasTheStore | internal/watch/manager.go:134-184 | Once it has drained its channel, what it received reproduces all of the store that it may see |
| Prelude.Unlist | internal/watch/manager.go:100-105 | The loop cuts out the first occurrence of the id and nothing else; the metadata index uses the same loop |
| Watch.TrailingDoubleStar | internal/watch/manager.go:199-202 | A pattern that ends in `**` matches exactly the keys with the prefix before it; `**` alone matches every key |
| WatchDelivery.PatternMatchesIff | internal/watch/manager.go:187-214 | A pattern matches the key equal to it; beyond that, with two stars in a row the keys that start with what is left without two stars at the end, with single stars what the wildcard match accepts, without stars nothing |
| WatchDelivery.ExactPatternIff | internal/watch/manager.go:189-196 | A pattern without a star matches exactly the key equal to it |
| WatchDelivery.ToldIff | internal/watch/manager.go:134-184 | A notification adds its event to a channel exactly when there is room and the channel belongs to a registered watcher that may read the key and whose pattern matches it |
| WatchDelivery.KeyWatcherIsTold | internal/watch/manager.go:134-196 | A watcher of one key that may read it and has room is told of every event of that key |
| WatchDelivery.NewChannelHolds | internal/watch/manager.go:41-86 | The channel of a new watcher holds the first `bufferSize` events meant for it and drops the rest |
| WatchDelivery.NewKeyWatcherHears | internal/watch/manager.go:41-196 | So a new watcher of one key gets the first `bufferSize` events of that key |
| WatchDelivery.LimitReachedIff | internal/watch/manager.go:41-56 | The limit refuses exactly a named user who has as many registered watchers as a positive limit allows |
| Watch.AddKeepsRegistry | internal/watch/manager.go:41-86 | Adding keeps the three structures consistent: each id once, in its own pattern's list; exact counts within the limit; open channels exactly for registered ids |
| Watch.RemoveKeepsRegistry | internal/watch/manager.go:89-131 | So does removing, registered id or not |
| Watch.CloseKeepsRegistry | internal/watch/manager.go:257-270 | So does closing the manager |
| Watch.EveryInterleavingIsConsistent | internal/watch/manager.go:41-270 | The registry is consistent after every interleaving of additions with fresh ids, removals, notifications, receives and closes |
| WatchRuns.ClosedForEver | internal/watch/manager.go:89-131 | In every run a channel once closed stays closed and unregistered for good; all its buffer ever does is lose events from the front, so nothing is sent to it and nothing closes it again |
| WatchRuns.ChannelCarriesOffers | internal/watch/manager.go:134-184 | At every moment of every run a channel has carried, in order and once each, exactly the notifications that concerned its watcher and found room |
| WatchRuns.NothingLostIff | internal/watch/manager.go:134-184 | Nothing is lost exactly when no such notification met a full channel |
| WatchManager.Manager.AddWatcher | internal/watch/manager.go:41-86 | Refuses exactly when a positive limit is reached for a named user; otherwise registers id, pattern and count, with an open, empty channel of the configured size |
| WatchManager.Manager.RemoveWatcher | internal/watch/manager.go:89-131 | Unlists the id, drops an empty pattern list and a zero count, closes the channel once; unknown ids change nothing |
| WatchManager.Manager.Notify | internal/watch/manager.go:134-184 | The loops over patterns and ids, in any order, deliver to exactly the watchers concerned, never on a closed channel; a permitted watcher of the very key with room gets the event |
| WatchManager.Manager.Close | internal/watch/manager.go:257-270 | Closes every open channel once and empties the registry |
| Persistence.CommitRefinesExecution | internal/persistence/memory.go:195-222 | Committing the buffered last operation per key equals executing all operations in order |
| Persistence.LastOperationWins | internal/persistence/memory.go:195-222 | After a transaction a key has what its last operation gave it, and no value when that was a deletion |
| Persistence.MemoryTx.Commit | internal/persistence/memory.go:210-222 | The commit loop, in any order, leaves the engine as if the transaction's operations had run one by one |
| Persistence.MemoryEngine.BatchSet | internal/persistence/memory.go:116-124 | The stored pairs are overlaid by the items, whatever the iteration order |
| Persistence.MemoryEngine.BatchDelete | internal/persistence/memory.go:126-134 | Exactly the listed keys go |
| KvDurability.StepKeepsEngine | internal/store/kv.go:136-705 | Whatever the engine holds, old-format texts included: if loading it gives the entries, loading it after any operation, failed or not, gives the new entries |
| KvDurability.OpenedHolds | internal/store/kv.go:67-109 | After opening, the store has exactly the stored keys with the entries that were saved; a text in the old format is the value, without flags and with index 1 |
| KvDurability.RestartRecovers | internal/store/kv.go:67-109 | At every moment of every history of operations and restarts, on any first engine contents, a restart gives back exactly the present entries |
| KvDurability.RestartIsInvisibleIff | internal/store/kv.go:67-109 | At every such moment no later command can tell a restart exactly when some live entry carries the counter (or it is 0) |
| KvDurability.EngineFollowsStore | internal/store/kv.go:136-705 | An engine that held nothing but encoded entries holds exactly the encoded present entries, through every history |
| ServiceEffects.RegisterStores | internal/store/service.go:159-353 | A registration that goes through stores exactly the registered service, new or not, until now + ttl under the next index, keeps the create index of a known name and touches no other entry; it goes through exactly when the service is valid and its guard is met |
| ServiceEffects.RegisterRefusals | internal/store/service.go:246-353 | An invalid service is refused as invalid; an unmet guard is answered by the present index, or by the name being unknown |
| ServiceEffects.DeregisterRemoves | internal/store/service.go:442-506 | A removal takes the entry and no other; a guarded one only at the expected index |
| ServiceEffects.HeartbeatExtends | internal/store/service.go:407-439 | A heartbeat moves the expiry of a known name to now + ttl and changes nothing else |
| ServiceEffects.InvalidIff | internal/store/validation.go:35-136 | What makes a service invalid: an empty name or address, a port outside 1 to 65535, too many, repeated or ill-formed tags, too many metadata entries, ill-formed or reserved keys, too long values |
| ServiceEffects.LastRegistration | internal/store/service.go:159-542 | In every run a live entry holds the very service that the last registration of its name brought |
| ServiceEffects.LastRefresh | internal/store/service.go:159-542 | And it expires one ttl after the last registration or heartbeat of its name |
| ServiceModel.StepAgrees | internal/raft/fsm.go:217-295 | One service command gives equal replies and equal states up to expiry on two nodes with different clocks |
| ServiceModel.ReplicasAgree | internal/raft/fsm.go:217-295 | Over any log of service commands, compare-and-swap included, replicas differ in expiry times only and give the same replies |
| ServiceIndex.TagsAgreeAfterRemoval | internal/store/service_index.go:14-24 | Taking a service's tags out of the tag index makes it agree with the entries without that service |
| ServiceIndex.TagsAgreeAfterAddition | internal/store/service_index.go:4-11 | Putting them in makes it agree with the entries with it |
| ServiceIndex.MetasAgreeAfterRemoval | internal/store/service_index.go:37-58 | The same for the metadata index: each name once per bucket, no empty bucket |
| ServiceIndex.MetasAgreeAfterAddition | internal/store/service_index.go:27-34 | The same for the metadata index: each name once per bucket, no empty bucket |
| ServiceIndex.IndexesAreDetermined | internal/store/service.go:34-44 | Two indexes that agree with the same entries are equal, up to the order inside a metadata bucket |
| ServiceStore.ServiceStore.AddToTagIndex | internal/store/service_index.go:4-11 | Adds the name to exactly the buckets of its tags |
| ServiceStore.ServiceStore.RemoveFromTagIndex | internal/store/service_index.go:14-24 | Takes the name out of exactly those buckets and drops empty ones |
| ServiceStore.ServiceStore.AddToMetaIndex | internal/store/service_index.go:27-34 | Appends the name to exactly the buckets of its metadata, in any iteration order |
| ServiceStore.ServiceStore.RemoveFromMetaIndex | internal/store/service_index.go:37-58 | Takes one occurrence out of exactly those buckets and drops empty buckets and keys |
| ServiceStore.ServiceStore.Register | internal/store/service.go:159-240 | Refines the specified registration, keeps both indexes in agreement and the engine in step; an invalid service changes nothing |
| ServiceStore.ServiceStore.RegisterCAS | internal/store/service.go:246-353 | The same, with the specified reply; a refused one changes nothing |
| ServiceStore.ServiceStore.Heartbeat | internal/store/service.go:407-439 | Extends the expiry of a known service only, in memory and engine |
| ServiceStore.ServiceStore.Deregister | internal/store/service.go:442-462 | Removes the entry from store, indexes and engine |
| ServiceStore.ServiceStore.DeregisterCAS | internal/store/service.go:467-506 | Removes it only at the expected index, with the specified reply |
| ServiceStore.ServiceStore.CleanupExpired | internal/store/service.go:509-542 | Removes exactly the entries that expired strictly before now, in any order, from store, indexes and engine, and counts them |
| ServiceStore.ServiceStore.RegisterLocal | internal/store/service.go:602-653 | Refines the specified command and keeps both indexes in agreement |
| ServiceStore.ServiceStore.DeregisterLocal | internal/store/service.go:657-671 | Refines the specified command and keeps both indexes in agreement |
| ServiceStore.ServiceStore.RegisterCASLocal | internal/store/service.go:674-749 | Refines the specified command, reply included, and keeps both indexes in agreement |
| ServiceStore.ServiceStore.DeregisterCASLocal | internal/store/service.go:752-781 | Refines the specified command, reply included, and keeps both indexes in agreement |
| ServiceStore.ServiceStore.HeartbeatLocal | internal/store/service.go:825-839 | Refines the specified command and tells whether the service is known |
| ServiceStore.ServiceStore.GetAllData | internal/store/service.go:843-879 | The copy equals the stored entries |
| ServiceStore.ServiceStore.RestoreFromSnapshot | internal/store/service.go:884-931 | Rebuilds both indexes to agree with the snapshot, in any order; the counter is the largest live modify index |
| ServiceStore.ServiceStore.SnapshotState | internal/store/snapshot.go:36-45 | Saves entries and counter as they are |
| ServiceStore.ServiceStore.RestoreSnapshot | internal/store/snapshot.go:48-91 | Brings back exactly entries and counter, with both indexes rebuilt to agree |
| ServiceStore.ServiceStore.LoadFromPersistence | internal/store/service.go:101-156 | Loads exactly the served, readable, unexpired records, with both indexes in agreement and the counter at the largest index |
| ServiceStore.ServiceStore.List | internal/store/service.go:356-368 | The services that expire after now, in the order the map yields them |
| ServiceStore.ServiceStore.QueryByTags | internal/store/service_query.go:9-58 | Equals the plain scan: strictly sorted, no duplicates, exactly the unexpired services with every tag; no filter means `List` |
| ServiceStore.ServiceStore.QueryByMetadata | internal/store/service_query.go:61-135 | Equals the plain scan, whichever filter comes first; no filter means `List` |
| ServiceStore.ServiceStore.QueryByTagsAndMetadata | internal/store/service_query.go:138-184 | Equals the plain scan with both kinds of filter at the later of the two clock readings |
| ServiceQuery.ScanIsExact | internal/store/service_query.go:36-57 | The reference: strictly sorted by name, no duplicates, exactly the wanted services |
| ServiceQuery.FoundIff | internal/store/service_query.go:36-57 | A filtered query holds exactly the services whose entries have not expired, that carry every tag, and whose metadata has every value asked for |
| ServiceQuery.ListingIsExact | internal/store/service.go:356-368 | Without filters the result holds exactly the services whose entries have not expired, each name once |
| Sorting.LessIff | internal/store/service_query.go:36-41 | The order of names is dictionary order |
| ServiceQuery.WantedByTags | internal/store/service_query.go:14-50 | Intersecting tag buckets of an index that agrees gives exactly the names a scan keeps |
| ServiceQuery.WantedByMeta | internal/store/service_query.go:66-127 | Intersecting metadata buckets of an index that agrees gives exactly the names a scan keeps |
| ServiceQuery.CombinedScan | internal/store/service_query.go:138-184 | Keeping the metadata hits whose names are tag hits is one scan with both kinds of filter |
| ServiceDurability.OpenedMirrors | internal/store/service.go:101-156 | Opening a store on an engine with expired and unreadable records: every entry has its record, and every other record is one no later restart loads |
| ServiceDurability.OpenedServes | internal/store/service.go:101-156 | After opening, the registry has exactly the names whose records are served, readable and hold no expired entry, with the service and expiry that were saved; an entry without index gets index 1 |
| ServiceDurability.RunKeepsMirror | internal/store/service.go:159-240 | Every persistent operation keeps that relation between entries and engine |
| ServiceDurability.CleanupKeepsMirror | internal/store/service.go:509-542 | So does a cleanup |
| ServiceDurability.RestartRecoversLive | internal/store/service.go:101-156 | A restart at now yields exactly the entries that expire after now and keeps the relation, leftover records notwithstanding |
| ServiceDurability.RestartYieldsTheUnexpired | internal/persistence/memory.go:71-92 | At every moment of every history of persistent operations, cleanups and restarts, with clocks that do not run backwards, a restart at now yields exactly the entries that expire after now |
| ServiceDurability.HistoriesKeepNames | internal/store/service.go:159-353 | Through every such history each entry is stored under its service's own name |
| ServiceModel.SnapshotPlusSuffix | internal/store/service.go:884-931 | Two registries that differ in expiry times and by a fixed gap in later indices still do so after every log without compare-and-swap |
| ServiceRuns.ShadowFollows | internal/store/service.go:159-542 | Refinement: through every run of commands and cleanups the versions of the registry go through the states of a run of single key-value commands |
| ServiceRuns.EveryRunIsWellIndexed | internal/store/service.go:96-98 | In every run 1 <= create <= modify <= counter, and no two live services share an index |
| ServiceRuns.NoAba | internal/store/service.go:246-353 | If a guarded registration or deregistration expecting index e succeeds, an earlier event registered that very name with index e, and nothing registered, removed or cleaned the name since |
| ServiceRuns.AbaAfterRestore | internal/store/service.go:884-931 | Every index above the largest live one is given out again after the restore, and the stale guard goes through |
| ServiceRuns.NoAbaAcrossRestoreIff | internal/store/service.go:884-931 | The guarantee carries across a restore exactly when some live service carries the counter, or nothing was ever registered |
| ServiceRuns.SavedCounterKeepsGuards | internal/store/snapshot.go:36-91 | The snapshot that saves the counter keeps the guarantee after every run |
| ServiceRestarts.HistoryIsRun | internal/store/service.go:101-156 | A history with an engine and restarts, none of which lost the counter, is one run of the registry, each restart a cleanup of what expired |
| ServiceRestarts.NoAbaAcrossRestartIff | internal/store/service.go:101-156 | At every moment of every such history: the guarantee carries across a restart, for every earlier registration and every suffix, exactly when an entry that has not expired carries the counter, or nothing was ever registered |
| ServiceRestarts.DeletingTheNewestLosesIt | internal/store/service.go:442-462 | After any run, registering a service and removing it again is enough for a restore to lose the guarantee |
| ServiceRestarts.LettingTheNewestExpireLosesIt | internal/store/service.go:131-136 | After any run, a service that is registered last and expires before a restart is enough to lose it |
| ServiceRuns.RestoredRegistryFollows | internal/store/service.go:884-931 | A restored registry with a clock of its own keeps the same services through every log without compare-and-swap; later indices are lower by the gap |
| ServiceDurability.SameServicesSameIndexes | internal/store/service.go:407-439 | Changing expiry times only leaves both indexes in agreement |
| Fsm.KonsulFSM.Apply | internal/raft/fsm.go:48-96 | Every log entry changes the two stores and answers as specified; undecodable entries and unknown types change nothing |
| Fsm.EntryConcernsOneStore | internal/raft/fsm.go:48-96 | A key entry is a matter of the key store, a service entry of the registry, each by its command; a health update answers from the own checks; nothing else changes anything |
| Fsm.KonsulFSM.Snapshot | internal/raft/fsm.go:312-324 | The snapshot is the entries of both stores |
| Fsm.KonsulFSM.Restore | internal/raft/fsm.go:329-351 | Both stores take the snapshot's entries and their largest live index as counter, with indexes in agreement |
| Fsm.EntryKeepsAgreement | internal/raft/fsm.go:48-96 | One log entry keeps two nodes in agreement and, unless it is a health update, is answered alike |
| Fsm.NodesAgree | internal/raft/fsm.go:48-96 | Nodes with own map orders and own clocks agree after every entry and answer alike (health updates aside), for logs without compare-and-swap on keys |
| Fsm.SmallBatchNodesAreIdentical | internal/raft/fsm.go:48-96 | With batches of at most one item nodes are identical except for expiry times and answers to health updates, whatever the log |
| Fsm.RestoredNodeFollows | internal/raft/fsm.go:312-351 | Snapshot plus suffix for a whole node, with map orders and a clock of its own: same keys, values, flags and services; later indices lower by the gap of their store, up to the order inside one batch |
| FsmReplicas.LogIsDeterministicIff | internal/raft/fsm.go:48-96 | A log has one outcome on all nodes, expiry times and health answers aside, exactly when every key batch in it, in the state it meets, has at most one item or is a compare-and-swap batch refused because of one item only |
| FsmReplicas.RestoreIsInvisibleIff | internal/raft/fsm.go:312-351 | No log of keys and services, compare-and-swap included, gets another answer from a restored node, health aside, exactly when in both stores a live entry carries the counter (or it is 0) |
| TokenBucket.CheckKeepsWithin | internal/ratelimit/limiter.go:59-93 | After a check the tokens are between 0 and the burst in force |
| TokenBucket.AdmissionsArePaid | internal/ratelimit/limiter.go:59-93 | Admissions never exceed the tokens at the start plus rate bound times elapsed time, across custom configurations and their expiry |
| TokenBucket.WindowBound | internal/ratelimit/limiter.go:59-93 | Any window of length d admits at most B + R*d, from any bucket within the bounds |
| TokenBucket.AdmissionBound | internal/ratelimit/limiter.go:59-93 | The same after any history of a fresh limiter: the documented limit |
| TokenBucket.RefillIsAdditive | internal/ratelimit/limiter.go:66-73 | Refilling to s and then to t finds the same level as refilling to t |
| TokenBucket.SameLevelSameVerdicts | internal/ratelimit/limiter.go:59-93 | Buckets that find the same level give the same verdicts ever after |
| TokenBucket.DeniedCallIsInvisible | internal/ratelimit/limiter.go:83-92 | A denied call changes no later verdict |
| TokenBucket.DeniedCallsChangeNothing | internal/ratelimit/limiter.go:83-92 | Deleting every denied call from a history leaves all remaining calls admitted |
| TokenBucket.OneDeniedCall | internal/ratelimit/limiter.go:83-92 | Inserting or deleting one denied call anywhere leaves every other verdict unchanged |
| TokenBucket.EvictionIsInvisibleIff | internal/ratelimit/limiter.go:200-216 | Replacing a limiter by a new one changes no later verdict exactly when it would have been full again |
| TokenBucket.EvictionPolicyIsInvisibleIff | internal/ratelimit/limiter.go:200-216 | Eviction after 300 idle seconds is invisible for every history exactly when burst <= 300*rate |
| LimiterLedger.VerdictsAreTheLedger | internal/ratelimit/limiter.go:59-93 | The verdicts on any series of calls are those of a ledger: each call finds what was left plus rate times elapsed time, at most the burst, is admitted when that is at least 1, and then takes 1 |
| LimiterLedger.SteadyCallsAreAdmitted | internal/ratelimit/limiter.go:59-93 | Calls that are at least one token of refill apart are never refused, from the first that finds a token on |
| LimiterLedger.FreshLimiterAdmitsItsBurst | internal/ratelimit/limiter.go:26-41 | At one instant a new limiter admits exactly its burst |
| LimiterLedger.ConfigurationDecides | internal/ratelimit/limiter.go:463-506 | A custom configuration: tokens clamped to its burst, the verdicts before its end those of a limiter that has it for its own, and from its end on those of the base configuration on the tokens left |
| RateLimiter.Limiter.AllowWithEndpoint | internal/ratelimit/limiter.go:59-93 | Verdict and new bucket are the specified ones; exactly one counter advances; a denial is recorded with the tokens left |
| RateLimiter.Limiter.GetEffectiveConfig | internal/ratelimit/limiter.go:463-475 | The custom configuration counts strictly before its expiry and is forgotten strictly after it |
| RateLimiter.Limiter.RecordViolation | internal/ratelimit/limiter.go:479-489 | The history is the last hundred |
| RateLimiter.Limiter.SetCustomConfig | internal/ratelimit/limiter.go:492-506 | Installs the configuration and clamps the tokens to its burst |
| RateLimiter.Store.GetLimiter | internal/ratelimit/limiter.go:135-156 | Returns the client's own limiter, a fresh full one if it had none; no two clients share one |
| RateLimiter.Store.Allow | internal/ratelimit/limiter.go:159-162 | Charges that client's bucket and no other |
| RateLimiter.Store.CleanupExpired | internal/ratelimit/limiter.go:200-216 | Evicts exactly the limiters idle for more than 300 seconds, in any order |
| RateLimiter.HistoryIsTheRecentHundred | internal/ratelimit/limiter.go:479-489 | Over any sequence of denials the history holds the most recent hundred, oldest first |
| RateLimiter.StoreHidesEviction | internal/ratelimit/limiter.go:200-216 | Over any run of calls and cleanups, with burst <= 300*rate, a client's bucket finds the level it would have without evictions |
| RateLimiter.VerdictsAreAsIfNeverEvicted | internal/ratelimit/limiter.go:200-216 | Hence every call is answered as if no limiter were ever evicted |
| LimiterResets.WindowWithResets | internal/ratelimit/limiter.go:103-108 | With manual resets a window of length d admits at most B + R*d, and B more for each reset in it |
| LimiterLedger.ResetLimiterAdmitsItsBurst | internal/ratelimit/limiter.go:103-108 | At the moment of a reset a limiter admits exactly its burst, whatever it had left |
| LimiterResets.ClearingIsExpiring | internal/ratelimit/limiter.go:509-513 | Clearing a custom configuration still in force at some moment, and having it expire at that moment all along, give the same verdicts, before and after |
| Glob.KVRule.Compile | internal/acl/types.go:95-125 | The chain of in-place passes and the anchoring compute the specified string |
| Glob.KVRule.Matches | internal/acl/types.go:87-92 | The answer is that of the compiled path, compiled before or not |
| GlobMeaning.EscapedOneByOne | internal/acl/types.go:98-107 | The nine escaping passes in a row escape each character once, none of them disturbing another |
| GlobMeaning.ServicePasses | internal/acl/types.go:146-163 | The same for service names, where every star is a double one |
| GlobMeaning.ParseAnchored | internal/acl/types.go:95-124 | The compiled string is a well-formed expression: alternatives at each bar, anchors added only where missing |
| GlobMeaning.AtomsMatchTokens | internal/acl/types.go:109-114 | Matching the emitted pieces from a position is the glob meaning: one star stays inside a segment, two cross segments |
| GlobMeaning.MeaningIff | internal/acl/types.go:146-172 | An expression compiled from given tokens accepts exactly what they denote exactly when no literal is an operator |
| GlobRules.ThirdPass | internal/acl/types.go:109-114 | What the placeholder pass takes the tokens for, in a string that may hold section signs of its own |
| GlobRules.KvPasses | internal/acl/types.go:95-124 | For every path the passes write, token by token, what the placeholder pass takes the path for: stars read greedily in pairs, other characters escaped |
| GlobRules.MentionsIff | internal/acl/types.go:109-114 | The pass takes a path for something else exactly where it contains the placeholder, or the placeholder with its last sign replaced by two stars |
| GlobRules.KvRuleMeaningIff | internal/acl/types.go:95-125 | A path without backslash and line break keeps its glob meaning exactly when it has no bar, caret or dollar sign and does not mention the placeholder in one of these two forms |
| GlobRules.MentionedPlaceholderAcceptsMore | internal/acl/types.go:109-114 | Every such path without operators that mentions the placeholder accepts a key that its glob does not |
| GlobRules.ServiceRuleMeaningIff | internal/acl/types.go:146-172 | A service name without backslash and line break keeps its meaning exactly when it has no bar, caret or dollar sign |
| GlobPatterns.ExactPathIff | internal/acl/types.go:95-124 | A glob without stars accepts itself and nothing else |
| GlobPatterns.OneStarTailIff | internal/acl/types.go:109-114 | A glob that ends in one star accepts what its stem begins, as long as no slash follows the stem |
| GlobPatterns.TwoStarsTailIff | internal/acl/types.go:109-114 | A glob that ends in two stars accepts everything its stem begins |
| GlobPatterns.ServiceStarTailIff | internal/acl/types.go:158-163 | A service glob that ends in a star accepts everything its stem begins |
| AclEvaluator.Evaluator.HasCapability | internal/acl/types.go:128-135 | True exactly when the capability is listed |
| AclEvaluator.Evaluator.EvaluateRules | internal/acl/evaluator.go:161-195 | The nested search with early returns answers yes exactly when some matching rule carries the capability and no matching rule up to it denies |
| AclEvaluator.Evaluator.Evaluate | internal/acl/evaluator.go:103-158 | For each type of resource: yes exactly when the rules of that type in the known policies, one after the other, grant; key and service rules by their patterns, the others always applying; unknown names are skipped, an unknown type is refused |
| AclEvaluator.EachTypeHasItsRules | internal/acl/evaluator.go:137-158 | For each type of resource the rules searched are those of that type in the known policies, in their order |
| AclEvaluator.KnownSplits | internal/acl/evaluator.go:118-134 | Known names give their policies one by one in the order of the list, unknown names nothing |
| AclEvaluator.Evaluator.AddPolicy | internal/acl/evaluator.go:27-42 | Adds a named, absent policy; the error cases change nothing |
| AclEvaluator.Evaluator.UpdatePolicy | internal/acl/evaluator.go:45-60 | Replaces a known policy; the error cases change nothing |
| AclEvaluator.Evaluator.DeletePolicy | internal/acl/evaluator.go:63-74 | Removes a known policy; an unknown name is an error |
| AclEvaluator.Evaluator.LoadPolicies | internal/acl/evaluator.go:318-334 | Stops at the first nameless policy and keeps the ones before it |
| AclEvaluator.LastLoadedCounts | internal/acl/evaluator.go:318-334 | Of loaded policies with one name the last one counts |
| AclEvaluator.GrantsConcat | internal/acl/evaluator.go:167-189 | A later list counts only while the earlier one neither grants nor denies |
| AclEvaluator.GrantedByAPolicy | internal/acl/evaluator.go:167-189 | Access is given by a policy that grants on its own with no matching deny in any policy before it |
| AclEvaluator.WithoutDenyOneIsEnough | policies/README.md:328-328 | Without a matching deny one granting policy is enough |
| AclEvaluator.SomeOrderGrantsIff | internal/acl/evaluator.go:167-189 | Some order of the policies gives access exactly when one of them grants on its own |
| AclEvaluator.ExplicitDenyWinsIff | policies/README.md:326-326 | With a matching deny attached, every order is denied exactly when no attached policy grants on its own |
| AclEvaluator.ExplicitDenyLoses | policies/README.md:326-326 | An allowing policy before a denying one gives access; the other way round it is refused |
| AclEvaluator.EveryOrderGrantsIff | internal/acl/evaluator.go:167-189 | Every order gives access exactly when some policy grants on its own and so does every policy with a matching deny |
| AclEvaluator.FirstMatchDecidesIff | policies/README.md:327-327 | The first matching rule settles the verdict, whatever follows, exactly when it denies or carries the capability |
| AclEvaluator.PlainPatternsAreGlobs | internal/acl/evaluator.go:161-195 | With plain patterns the evaluator decides as if it matched the globs themselves |
| AclEvaluator.PlainServicePatternsAreGlobs | internal/acl/evaluator.go:198-233 | The same for service rules |
| AclEvaluator.GrantIsNamed | internal/acl/evaluator.go:103-158 | Access is always due to a stored policy that the list calls by its own name and that grants on its own |

## Left out

- Integer widths: Go's `int`, the 64-bit index counter and the 32-bit connection counters are unbounded here; only the 32-bit minimum of the smooth scan and the 64-bit range of a weight's text are modelled.
- Floating-point rounding: tokens, rates and seconds are real numbers.
- Clock readings: one reading per limiter check, query, load or cleanup pass; the program reads the clock again inside some of them. A combined query takes two.
- Overlapping operations: methods are atomic. `Set`, `SetWithFlags`, `Delete`, the plain batches and their local forms release the lock before notifying and persisting, so the mirror and durability results are for runs whose operations do not overlap.
- Engine failures: the engine always succeeds; the batch of the engine that the persistent store writes through is the memory engine's.
- Engine backup and restore files, listing by prefix, and BadgerDB: not modelled.
- JSON, FNV, UUIDs, sorting and regular expressions: the codec is a parameter with a stated inverse law, the hash is uninterpreted, fresh ids are inputs, sorting is a specification-level insertion sort, and only the expressions the compiler emits from patterns without backslash have a meaning. For any other pattern `Matches` answers `None`.
- AclEvaluator.Evaluator.EvaluateRules: one search stands for the five copies per resource type; rules without a pattern carry an empty one and always match. Path cleaning of resources is not modelled.
- Glob.KVRule.Matches: a pattern with a backslash is outside the modelled part of the regular-expression language and gets no answer; the program answers by the library's full escape syntax, or panics.
- GlobRules.KvRuleMeaningIff: backslash and line breaks are outside its premise, and keys with a line break are outside the meaning compared.
- Glob.KVRule.Compile: the nine escaping passes are a loop over the nine characters; a pattern the regular-expression library rejects would panic in the program.
- RateLimiter.VerdictsAreAsIfNeverEvicted: limiters with a custom configuration are excluded; evicting one forgets the configuration.
- Balancer.Balancer.SelectRingHash: the package-level tables of rings and weight vectors belong to one balancer object here; balancers of one process would share them.
- Connections.InstanceKey: a text is a sequence of characters, so names and addresses are taken to be valid UTF-8.
- IP-hash, latency-based and uniformly random selection: single expressions or loops without state.
- Empty instance lists: the callers of the strategies return before calling them.
- Restores and watchers: a restore notifies nobody, so the mirror is for runs without one; permissions are taken to be fixed along a run.
- Watch channels: a send is kept exactly when the buffer has room, so a receiver waiting on a channel without buffer is not modelled; the single-level wildcard of watch patterns is a parameter (`filepath.Match`), as is the permission check.
- Fsm.KonsulFSM.Apply: a health update changes nothing replicated; its answer is an input from the node's own health checks, so answers to such entries are outside the agreement theorems.
- ServiceDurability.RestartYieldsTheUnexpired: is for engines whose readable records do not expire before the entries in them, which holds of the empty engine and of every record that the program writes.
- ServiceStore.ServiceStore.RestoreFromSnapshot: asks that restored entries are stored under their services' own names, as every snapshot of such a store has them; the same holds for loading from an engine.
- Services: health checks, their registration and time-to-live updates, metrics and logging are no-ops; validation errors are one value, and lengths are counted in characters.
- ServiceModel.ReplicasAgree: expiry times are excluded, because each node takes them from its own clock; cleanup is not a log entry.
- KvRuns.EveryRunIsWellIndexed: is about runs from the empty store; values loaded from the old format all carry index 1.
- Persistent and local forms: share their in-memory part here; the program repeats it.
- The Raft library, transport, HTTP, GraphQL, DNS, the command line, the user interface and audit logging: not modelled.
