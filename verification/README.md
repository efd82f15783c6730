# KCR cache: verified model

KCR memoizes results of user code in the kernel. Each CPU has an L2 hash table of 64
buckets, each socket an L3 hash table of 512 buckets and 256 external slots for results
over 64 bytes; entries live for one TTL of a wrapping 64-bit clock. A learning automaton
decides what may be cached at all.

The project models the cache twice and ties the two together.

* **One tier under concurrency.** `RcuTier` is a step machine with one step per pointer
  written and per node visited: lock-free readers, one locked writer per bucket doing a
  store or an invalidation, and RCU callbacks, in any interleaving. `RcuInvariant`,
  `RcuSteps` and `RcuRelink` prove its invariant, `RcuSafety` safety of reclamation,
  `RcuProgress` that nodes are freed and sections end, `RcuReaders` what a reader finds,
  `RcuWriters` that every bucket behaves as if its critical sections ran one after the
  other, `RcuLinearization` that a lookup overlapping them answers for the list at one
  moment of its own section, and when that differs from stores taking effect whole.
* **Two tiers over many CPUs and sockets.** `System` is a state machine over calls, built
  on chains (`Chains`) and hash tables (`Tables`); `SystemInvariant`, `SystemTheorems` and
  `SlotTheorems` prove what holds in every run, `Reach` how far each call reaches.
  `Histories` records what a run has stored, and `Hits` proves what every hit of every CPU
  is worth against that record.
* **In place.** `Buckets`, `Tiers` and `Cache` are the code's own form: mutable nodes with
  `next` and `pprev`, bucket loops that delete while iterating, slot arrays, counters. Every
  method is proved against the function of `Chains`, `Tables`, `Slots` or `System` it
  implements. `Lifecycle` does the same for `kcr_init` and `kcr_exit`.
* **Around the cache.** `Words` (clock), `Payloads` (the entry's union, byte for byte),
  `Injection` (validation and register restore), `Determinism` (the automaton),
  `Statistics` (counters and hit rate).
* **The shared node.** The two-tier machine and `Cache` give an entry a node per tier; the
  code gives it one. `SharedNode`, `SharedLists`, `SharedPair` and `SharedStores` model the
  one node, pointer write by pointer write, and prove where that changes the two-tier
  results.

`RcuWriters.BucketIsSerial`, `Buckets.Bucket.Store` and `Buckets.Bucket.PurgeMm` meet in the
same two functions, `Chains.StoreChain` and `Chains.Purge`, of which a table of buckets is
shown to be a map from (fingerprint, mm) to entries.

## Where the code departs from its documentation

Each departure below is a theorem about what the code does. The first one also limits the
two-tier machine, as it says.

* One `node` is linked into both tiers (drivers/kcr/kcr_cache.c:327-328): the push onto L3
  rewrites its `next` and `pprev`, so the L2 bucket goes on where the L3 bucket does, and
  unlinking the node writes the L3 head. `SharedNode.UnlinkTakesOff` is the exact condition
  for an unlinking to work. These results of `SystemInvariant` and `SystemTheorems`
  hold with a node per tier and not for every run of the code: L3HitIsForeign and
  LonelyCpuHasNoL3Hit (`SharedStores.SecondStoreDropsFirst`; exactly when:
  `SharedStores.OwnEntryHitsL3`), ReadYourWrites (`SharedStores.ReadsAnother`),
  PromotionMovesOne, PromotionKeepsContent and PromotionIsInvisible
  (`SharedStores.PromotionLendsAnEntry`), with them `Reach.LookupReach`, `Reach.StoreReach`
  and `Reach.NeighboursFind`, InvalidationIsExact, MissesUntilRefilled and
  InvalidationReach (`SharedPair.StoreThenInvalidate`; exactly when:
  `SharedPair.DropMissesExactly`), and AtMostOneLive (`SharedStores.ReadsAnother`). For one CPU and one L3 bucket behind its L2 bucket
  `SharedPair.PairRefines` describes every run, and there no lookup goes on to L3, a CPU
  reads what it wrote, and the buckets are those of the two-tier machine except as
  `SharedPair.AgreesExactly` says.
* Invalidation is documented as covering all entries of an mm (line 16 of KCR's own README,
  drivers/kcr/kcr_cache.c:334-347). It covers the calling CPU's L2 and its socket's L3;
  `SystemTheorems.InvalidationReach` gives every CPU's answer in the two-tier machine, and
  `SystemTheorems.OtherCpuStillHits` a run in which one still hits.
* Freeing all slots is called conservative (drivers/kcr/kcr_cache.c:396-398). It frees blocks
  that surviving entries still name: a large entry still found after an invalidation names
  its block if and only if it did before and the invalidating CPU is on another socket
  (`Hits.EntryOutlivesItsSlot`); `Hits.FreedUnderAHit` is a run, `Hits.HitHoldsItsData` the
  condition over whole runs.
* A small result is copied into `result[]` and then `ext_data` and `ext_size`, which lie over
  its first twelve bytes, are cleared (drivers/kcr/kcr_cache.c:321-323):
  `Payloads.InlineSurvives`, `Payloads.InlineLosesOne`, `Injection.InjectionRestoresExactly`.
* Expiry is a wrapping comparison. It is exact for 2^63 + TTL ticks after the store and then
  turns round: `Words.AcceptsExactly`, `SystemTheorems.OldEntryComesBack`; at exactly that
  age a found entry also fails the validation (`Injection.HitValidates`,
  `Injection.HitFailsValidation`).
* The generation check compares an mm with itself and never fails on its own
  (drivers/kcr/kcr_cache.c:289, kernel/kcr/kcr_core.c:112-117).
* The printed hit rate is exact if and only if hits times 100 fits in 64 bits:
  `Statistics.RateOfRun`, `Statistics.RateOverflows`.
* `inject_result` tests its entry for NULL only after reading its mask
  (kernel/kcr/kcr_core.c:143-145), so that half of the test never helps: the model's entry
  is never NULL.
* The file comment speaks of 512 and 4096 entries (drivers/kcr/kcr_cache.c:6-8); the
  constants are 64 and 512 (include/linux/kcr.h:44-45), and they count buckets.

## Model

| member | source | states |
|---|---|---|
| RcuSafety.NoFault | drivers/kcr/kcr_cache.c:37-43 | under every interleaving no reader and no writer touches a freed node, no node is queued for freeing twice and none is freed twice |
| RcuSafety.ReaderKeepsItsNode | drivers/kcr/kcr_cache.c:63-74 | from the moment a reader stands on a node until its rcu_read_unlock that node is not freed |
| RcuSafety.EveryNodeAccounted | drivers/kcr/kcr_cache.c:195-203 | every node ever made is in exactly one of: its list, its writer's hands, the queue for freeing, freed; nothing leaks |
| RcuSafety.StepInv | drivers/kcr/kcr_cache.c:192-204 | each single pointer write, read, lock, tick and callback keeps the pointer and grace-period invariant |
| RcuSafety.RunInv | drivers/kcr/kcr_cache.c:192-204 | so every state of every run satisfies it |
| RcuRelink.WalkBypass | drivers/kcr/kcr_cache.c:197 | unlinking a node hides that node and nothing else from every walk, wherever the walk starts |
| RcuProgress.CallbackFrees | drivers/kcr/kcr_cache.c:37-43 | once a callback has run its node is freed for good: in every later state it is freed, not queued and not linked |
| RcuProgress.GracePeriodEnds | drivers/kcr/kcr_cache.c:197-198 | a queued node is freed, or its callback may run, as soon as every reader that was inside a section has been outside one since |
| RcuProgress.RetiredIsPoisoned | drivers/kcr/kcr_cache.c:197-198 | in every run a node handed to call_rcu has a poisoned pprev |
| RcuProgress.SectionEnds | drivers/kcr/kcr_cache.c:192-204 | a critical section ends: it makes fewer than 5 writes per node its bucket held when locked, and 5 more, and one is always enabled, whatever anybody else does |
| RcuProgress.ReadSectionEnds | drivers/kcr/kcr_cache.c:63-75 | a read-side section ends: from the node a reader stands on, its reads until it is outside are bounded, and one is always enabled |
| RcuReaders.NeverMisses | drivers/kcr/kcr_cache.c:63-75 | a reader never comes back empty-handed while an unexpired matching entry stays linked from its rcu_read_lock on, even while it stands on unlinked nodes |
| RcuReaders.SeesOnlyLinked | drivers/kcr/kcr_cache.c:63-70 | whatever a reader stands on or returns was linked in the bucket at some moment of its own section |
| RcuReaders.HitWasLive | drivers/kcr/kcr_cache.c:65-70 | a returned entry has the key asked for and was unexpired when compared |
| RcuReaders.NextIsOlder | drivers/kcr/kcr_cache.c:203 | every next leads to a strictly earlier inserted node, in every reachable state and for unlinked nodes too |
| RcuReaders.WalkBounded | drivers/kcr/kcr_cache.c:64-73 | so a walk ends: its steps are bounded from the node it starts on, whatever the writers do meanwhile |
| RcuReaders.RunHomes | drivers/kcr/kcr_cache.c:59-60 | every node is in the bucket of its fingerprint in every run |
| RcuWriters.OutcomeStep | drivers/kcr/kcr_cache.c:192-204 | a store or purge takes effect as a whole when it takes the bucket lock; no other step of anyone changes what the bucket will hold |
| RcuWriters.RunSerial | drivers/kcr/kcr_cache.c:362-370 | over a run the outcome of a bucket is its critical sections executed one after the other |
| RcuWriters.BucketIsSerial | drivers/kcr/kcr_cache.c:192-204 | whenever the lock is free the linked list is exactly that serial result, for stores and purges mixed |
| RcuLinearization.RunKeys | drivers/kcr/kcr_cache.c:192-204 | linked nodes of a bucket have distinct keys in every state, inside critical sections too |
| RcuLinearization.MissIsLinearizable | drivers/kcr/kcr_cache.c:63-75 | a reader that returns nothing did so for a moment of its own section at which the list of its bucket held no live entry of the key |
| RcuLinearization.MissIsExplained | drivers/kcr/kcr_cache.c:192-204 | against operations that take effect whole: at some moment of the section the serial chain, or the one before the operation under way, had no live entry of the key, or the writer was just replacing an entry of that very key |
| RcuLinearization.MissesWhileReplaced | drivers/kcr/kcr_cache.c:195-203 | that last case in a run of twelve steps: a reader misses a key whose entries before and after the store under way are both unexpired |
| RcuLinearization.HitIsLinearizable | drivers/kcr/kcr_cache.c:63-70 | the entry a reader returns is what its bucket answered at a moment of its section, if it was unexpired when the section began too and the section lasted less than 2^63 ticks |
| RcuLinearization.ClockAt | drivers/kcr/kcr_cache.c:67 | in every run the clock is the starting value plus the ticks since, as a 64-bit word |
| Chains.FindLiveFirst | drivers/kcr/kcr_cache.c:64-73 | the walk returns the first entry of the chain that matches and is unexpired, and nothing if and only if there is none |
| Chains.RemoveFirstKeeps | drivers/kcr/kcr_cache.c:195-201 | the replacement loop removes one match at most and keeps every other entry |
| Chains.RemoveFirstOrder | drivers/kcr/kcr_cache.c:195-201 | and keeps their order |
| Chains.StoreChainUnique | drivers/kcr/kcr_cache.c:232-241 | a store into a chain without duplicate keys leaves one without |
| Chains.PurgeExact | drivers/kcr/kcr_cache.c:363-369 | the deletion loop leaves exactly the entries of other mms, and with the removed ones they are the old chain as a multiset |
| Chains.PurgeOrder | drivers/kcr/kcr_cache.c:363-369 | one strictly increasing map of positions embeds the purged chain in the old one and skips exactly the entries of the mm |
| Chains.PurgeOtherMm | drivers/kcr/kcr_cache.c:363-369 | a purge changes no lookup of another mm |
| Tables.StoreIsUpdate | drivers/kcr/kcr_cache.c:219-244 | on a table seen as a map from (fingerprint, mm), a store is an update |
| Tables.PurgeIsFilter | drivers/kcr/kcr_cache.c:378-389 | invalidating an mm filters the map |
| Tables.FindIsRead | drivers/kcr/kcr_cache.c:89-111 | a lookup reads the map restricted to unexpired entries |
| Tables.DetachIsRemove | drivers/kcr/kcr_cache.c:131 | taking a promoted entry out removes its key from the map |
| Tables.EmptyIsEmptyMap | drivers/kcr/kcr_main.c:147-150 | freshly initialised buckets are the empty map |
| Buckets.Bucket.JoinNeighbours | drivers/kcr/kcr_cache.c:197 | unlinking writes the neighbours' next and pprev and leaves the node's own next |
| Buckets.Bucket.HlistDel | drivers/kcr/kcr_cache.c:365 | an acyclic list with consistent pprev stays one, without that node |
| Buckets.Bucket.HlistTake | drivers/kcr/kcr_cache.c:131 | a promoted node leaves the list without being retired and no longer belongs to the bucket |
| Buckets.Bucket.HlistAddHead | drivers/kcr/kcr_cache.c:203 | the list stays well formed with the node in front |
| Buckets.Bucket.Find | drivers/kcr/kcr_cache.c:64-73 | the pointer walk returns a linked node holding what the chain lookup finds |
| Buckets.Bucket.FirstOfKey | drivers/kcr/kcr_cache.c:195-201 | the loop of the store functions stops at the first node of the key, expired or not |
| Buckets.Bucket.Retire | drivers/kcr/kcr_cache.c:197-198 | the node leaves the list and is handed to call_rcu, keeping its next |
| Buckets.Bucket.Store | drivers/kcr/kcr_cache.c:192-204 | contents become the chain store, and exactly the replaced entry is retired |
| Buckets.Bucket.Visit | drivers/kcr/kcr_cache.c:363-369 | one turn of the safe iteration removes the entry exactly when it is of the mm and goes on behind it |
| Buckets.Bucket.PurgeMm | drivers/kcr/kcr_cache.c:359-371 | the pass over a bucket leaves the purged chain, retires exactly the removed entries in order, and counts them |
| Tiers.Tier.constructor | drivers/kcr/kcr_main.c:128-131 | a new tier is the empty table, its buckets share no node |
| Tiers.Tier.Lookup | drivers/kcr/kcr_cache.c:56-76 | returns a node of the fingerprint's bucket exactly when the table lookup finds an entry |
| Tiers.Tier.Store | drivers/kcr/kcr_cache.c:184-206 | refines the table store; all other buckets keep their contents |
| Tiers.Tier.PurgeMm | drivers/kcr/kcr_cache.c:378-389 | refines the purge of the whole table and counts what it removed |
| Tiers.Tier.Detach | drivers/kcr/kcr_cache.c:131 | refines removal of the found entry; the node itself leaves the tier |
| Tiers.Tier.Attach | drivers/kcr/kcr_cache.c:132 | refines insertion at the head of its bucket, relinking the given node |
| Cache.KcrCache.constructor | drivers/kcr/kcr_main.c:122-155 | the loops of kcr_init build disjoint empty tiers and slots and the initial state |
| Cache.KcrCache.LookupUnified | drivers/kcr/kcr_cache.c:149-169 | on mutable tiers, returns the machine's answer, moves the state by the lookup step and keeps the invariant |
| Cache.KcrCache.PromoteHit | drivers/kcr/kcr_cache.c:123-134 | the node found in L3 is unlinked there and the same node pushed on the L2 bucket; this is the promotion step and allocates nothing |
| Cache.KcrCache.Allocate | drivers/kcr/kcr_cache.c:299-313 | the search loop takes the first NULL slot, and fails when there is none or kvmalloc fails there |
| Cache.KcrCache.FreeSlots | drivers/kcr/kcr_cache.c:393-402 | every slot of the socket ends NULL with size 0, all other sockets keep theirs |
| Cache.KcrCache.Payload | drivers/kcr/kcr_cache.c:293-324 | large results take a slot and store its pointer and length, small ones go inline, and a failed allocation changes nothing |
| Cache.KcrCache.StoreResult | drivers/kcr/kcr_cache.c:264-331 | returns 0, -EINVAL or -ENOMEM as the machine says, makes the store step and keeps the invariant |
| Cache.KcrCache.InvalidateRange | drivers/kcr/kcr_cache.c:348-406 | both bucket loops and the slot loop together are the invalidation step, and keep the invariant |
| Cache.KcrCache.Tick | drivers/kcr/kcr_cache.c:282 | time passing changes nothing but the clock and keeps the invariant |
| SystemInvariant.InitInv | drivers/kcr/kcr_main.c:122-155 | the state kcr_init leaves satisfies the invariant |
| SystemInvariant.LookupInv | drivers/kcr/kcr_cache.c:149-169 | a lookup, promotion included, keeps it: every duplicate behind the first of its key has outlived the TTL, everything in an L2 was stored on its socket, and what is in L3 is still in its owner's L2 |
| SystemInvariant.StoreInv | drivers/kcr/kcr_cache.c:264-331 | a store keeps it, though it removes only the first match |
| SystemInvariant.InvalidateInv | drivers/kcr/kcr_cache.c:348-406 | an invalidation keeps it, though it reaches one L2 and one L3 only |
| SystemInvariant.StepInv | drivers/kcr/kcr_cache.c:149-406 | so every step keeps it |
| SystemInvariant.RunInv | drivers/kcr/kcr_cache.c:149-406 | so it holds in every run over any CPUs and sockets |
| SystemTheorems.L3HitIsForeign | drivers/kcr/kcr_cache.c:156-165 | every L3 hit, hence every promotion, is for an entry stored by another CPU of the same socket and never one already in that L2 |
| SystemTheorems.LonelyCpuHasNoL3Hit | drivers/kcr/kcr_cache.c:160-165 | a CPU alone on its socket never has an L3 hit |
| SystemTheorems.AtMostOneLive | drivers/kcr/kcr_cache.c:194-203 | in every L2 chain everything behind an entry of its key has outlived the TTL, and is rejected as long as it is younger than 2^63 + TTL ticks; so then at most the first is live |
| SystemTheorems.HitIsFresh | drivers/kcr/kcr_cache.c:67 | every hit on any CPU has the key asked for and was stored less than one TTL ago, modulo the clock's wrap-around |
| SystemTheorems.OldEntryComesBack | drivers/kcr/kcr_cache.c:67 | a run in which an entry of age 2^63 + TTL is returned again: the age bound is needed |
| SystemTheorems.ReadYourWrites | drivers/kcr/kcr_cache.c:326-328 | after a successful store every lookup of the key by that CPU returns that entry until it expires, whatever other CPUs do, unless the CPU stores the key again or invalidates the mm |
| SystemTheorems.PromotionMovesOne | drivers/kcr/kcr_cache.c:123-134 | exactly one entry moves from the socket's L3 to the CPU's L2; no other table and no slot changes |
| SystemTheorems.PromotionKeepsContent | drivers/kcr/kcr_cache.c:149-169 | any lookup keeps the multiset of the CPU's L2 and its socket's L3 together |
| SystemTheorems.PromotionIsInvisible | drivers/kcr/kcr_cache.c:123-134 | the promoting CPU finds the same for every key afterwards; another CPU only loses that one key, only on the same socket, only without a live L2 entry |
| SystemTheorems.InvalidationReach | drivers/kcr/kcr_cache.c:358-389 | the exact answer of every CPU for every key after an invalidation by one CPU |
| SystemTheorems.OtherCpuStillHits | drivers/kcr/kcr_cache.c:358-389 | a two-call run: what CPU 1 stored it still finds after CPU 0 has invalidated the mm |
| SystemTheorems.InvalidationIsExact | drivers/kcr/kcr_cache.c:358-389 | exactly the entries of the mm leave the caller's L2 and its socket's L3, every bucket keeps its other entries in order and number, other tables and counters stay, the invalidation counter grows by the L2 entries removed |
| SystemTheorems.RemovedCounts | drivers/kcr/kcr_cache.c:363-369 | entries removed plus entries left are the entries before |
| SystemTheorems.MissesUntilRefilled | drivers/kcr/kcr_cache.c:348-389 | after an invalidation the CPU's lookups for the mm miss in every run until a CPU of its socket stores for the mm |
| Reach.StoreReach | drivers/kcr/kcr_cache.c:326-328 | the exact answer of every CPU for every key after an accepted store by one CPU: other keys unchanged, the storing CPU and those of its socket without a live L2 entry find the new entry |
| Reach.LookupReach | drivers/kcr/kcr_cache.c:149-169 | the exact answer of every CPU for every key after any lookup: unchanged, but for the other CPUs that relied on a promoted L3 entry |
| Reach.NeighboursShare | drivers/kcr/kcr_cache.c:91-96 | two CPUs use the same L3 table and slots if and only if their node numbers are equal, a node without a table counting as node 0 |
| Reach.HitStaysOnNode | drivers/kcr/kcr_cache.c:91-98 | in every run a CPU is only given what a CPU of its own node stored; node 0 also takes the CPUs of nodes without a table |
| Reach.NeighboursFind | drivers/kcr/kcr_cache.c:221-229 | conversely CPUs of one node find what one of them has just stored, and no CPU of another node does |
| Reach.FirstStoreSeen | drivers/kcr/kcr_cache.c:221-229 | runs of one store: seen on the same node and from a node without a table, not seen on another node |
| Reach.BucketsByFingerprint | drivers/kcr/kcr_cache.c:59-60 | in every run each entry is in bucket fingerprint modulo 64 of an L2 table, modulo 512 of an L3 table |
| Reach.ClockOfRun | drivers/kcr/kcr_cache.c:282 | no call but the timer moves the clock |
| Reach.JiffiesOfRun | drivers/kcr/kcr_cache.c:282 | the code's clock is its boot value plus the ticks since, as a 64-bit word |
| SlotTheorems.SlotsAreTheLedger | drivers/kcr/kcr_cache.c:300-312 | the occupied slots are always a prefix, one per large result stored since the socket's last invalidation, in order, with exact pointer, length and bytes |
| SlotTheorems.StoreFailsExactly | drivers/kcr/kcr_cache.c:272-318 | when a store fails and with which error, for all inputs; 256 held slots make a large store fail, and a failing store changes nothing |
| SlotTheorems.SlotIsKept | drivers/kcr/kcr_cache.c:302-308 | a large result's slot keeps its bytes and length until the next invalidation on the socket, even after the entry was replaced |
| SlotTheorems.SlotsAreDistinct | drivers/kcr/kcr_cache.c:300-312 | two large results with no invalidation in between never share a slot |
| SlotTheorems.SmallResultComesBack | drivers/kcr/kcr_cache.c:319-330 | store then lookup, in every run: the returned entry holds the stored bytes if and only if the first twelve are zero |
| SlotTheorems.LargeResultComesBack | drivers/kcr/kcr_cache.c:293-328 | store then lookup, in every run without an invalidation on the socket: the returned entry's pointer and size name a slot holding exactly the stored bytes |
| Histories.StoredSince | drivers/kcr/kcr_cache.c:299-313 | in the record of a run every successful store keeps its receipt, and is at or above the mark of a socket if and only if nothing was invalidated there since |
| Hits.HitHoldsItsData | drivers/kcr/kcr_cache.c:149-169 | every hit on every CPU in every run is an entry stored under that key on its socket; a small result can be read back iff its first twelve bytes are zero; a large one still has its slot iff nothing was invalidated on the socket since, and then the slot holds exactly the stored bytes |
| Hits.EntryOutlivesItsSlot | drivers/kcr/kcr_cache.c:392-403 | a large entry still found after an invalidation names its block if and only if it did before and the invalidating CPU is on another socket; on the same socket its slot is free |
| Hits.FreedUnderAHit | drivers/kcr/kcr_cache.c:392-403 | a two-call run: a 65-byte result of one mm is still found, and still points at its block, after another mm's invalidation has freed the slot |
| Slots.AllocateExtends | drivers/kcr/kcr_cache.c:300-312 | on a prefix of k blocks the allocator takes slot k, or fails exactly when k is 256 or kvmalloc fails |
| Slots.FreeAllEmpties | drivers/kcr/kcr_cache.c:393-402 | freeing leaves the empty prefix |
| Words.AcceptsExactly | drivers/kcr/kcr_cache.c:67 | for which elapsed times the wrapping expiry test accepts, for all of them |
| Words.AcceptsIffFresh | drivers/kcr/kcr_cache.c:282 | below 2^63 + TTL it accepts exactly when the entry is younger than the TTL, so rejection is permanent there |
| Words.AcceptsAgain | drivers/kcr/kcr_cache.c:67 | the window is sharp: one tick later the entry is accepted again |
| Payloads.InlineBytes | drivers/kcr/kcr_cache.c:319-324 | every byte of a stored small result: the first twelve are zero |
| Payloads.InlineSurvives | drivers/kcr/kcr_cache.c:319-324 | a small result can be read back if and only if its first twelve bytes are zero |
| Payloads.InlineLosesOne | drivers/kcr/kcr_cache.c:321-323 | the one-byte result 1 is stored as 0 |
| Payloads.InlineFirstWord | include/linux/kcr.h:133-142 | the first result word of a small result is always 0, and is the data's own word if and only if that word is 0 |
| Payloads.ExternalRoundTrip | drivers/kcr/kcr_cache.c:306-307 | the entry of a large result gives back its pointer and length, and zeros behind them |
| Payloads.BytesRoundTrip | include/linux/kcr.h:133-142 | writing a number over the union's bytes and reading it back loses nothing that fits |
| Injection.HitValidates | kernel/kcr/kcr_core.c:107-123 | a hit for a non-NULL mm passes validate_entry at the same instant if and only if its age is not 2^63 + TTL modulo 2^64 |
| Injection.HitFailsValidation | kernel/kcr/kcr_core.c:119-120 | a run in which a lookup returns an entry that fails validation at the same instant |
| Injection.ValidatesAtExpiry | kernel/kcr/kcr_core.c:119-120 | at the expiry instant an entry still validates and is no longer found |
| Injection.ForeignNeverValidates | kernel/kcr/kcr_core.c:109-117 | an entry any CPU is given in any run validates for no mm but its own, at no time, and neither a NULL entry nor a NULL mm ever validates |
| Injection.BothMmTestsCount | kernel/kcr/kcr_core.c:113-117 | the generation test and the pointer test each refuse a foreign mm on their own |
| Injection.BeforeAndNotAfter | kernel/kcr/kcr_core.c:119-120 | when the strict and the non-strict time test agree, on all words |
| Injection.InjectResult | kernel/kcr/kcr_core.c:141-168 | the mask selects which of eight registers are overwritten with which word; ip advances by the fragment length; a NULL regs changes nothing |
| Injection.InjectionRoundTrip | kernel/kcr/kcr_core.c:149-167 | eight registers saved into a result field and injected come back exactly where the mask has their bit, RAX to RSP; the others stay, ip moves on by the fragment length |
| Injection.InjectionOfHit | kernel/kcr/kcr_core.c:141-168 | injecting any hit of any run changes ax alone and leaves ip; for a small result ax becomes 0 |
| Injection.InjectionRestoresExactly | kernel/kcr/kcr_core.c:149-150 | ax becomes the small result's own first word if and only if its first eight bytes are zero |
| Determinism.VerifyDeterministic | kernel/kcr/kcr_determinism.c:45-81 | the method makes one transition of the automaton in place and returns its verdict; a NULL record is refused |
| Determinism.VmaMetadata.constructor | include/linux/kcr.h:241-247 | a zero-filled record is the fresh one |
| Determinism.VerdictExactly | kernel/kcr/kcr_determinism.c:51-69 | after any results: VERIFIED iff the first 100 exist and are equal, REJECTED iff one of the first 100 differs from the first |
| Determinism.TrustExactly | kernel/kcr/kcr_determinism.c:50-80 | the value returned for the next result, from the results alone: true if and only if with it there is still no mismatch among the first 100 |
| Determinism.VerdictIsFinal | kernel/kcr/kcr_determinism.c:71-77 | both verdicts are absorbing and freeze the whole record |
| Determinism.LearnedCount | kernel/kcr/kcr_determinism.c:62-67 | count, first result, state and ring of the record after any results, from the results alone |
| Determinism.RingHoldsTheLatest | kernel/kcr/kcr_determinism.c:62-63 | the count never exceeds 100 and each ring slot holds the latest accepted result with its index modulo 4 |
| Statistics.ShowStats | drivers/kcr/kcr_debugfs.c:57-79 | the loop computes the five sums over all CPUs as 64-bit words, and the rate from them |
| Statistics.RateIsExact | drivers/kcr/kcr_debugfs.c:75-77 | the printed rate is the exact floor percentage, at most 100, if and only if hits * 100 is below 2^64 |
| Statistics.RateOverflows | drivers/kcr/kcr_debugfs.c:75-77 | with 2^63 hits and no miss the printed rate is 0, not 100 |
| Statistics.CounterRun | drivers/kcr/kcr_cache.c:69-167 | over any run each counter of each CPU grows by exactly that CPU's lookups answered from L2, from L3, or missed, and by the entries its invalidations removed from its L2, modulo 2^64 |
| Statistics.EveryLookupCounted | drivers/kcr/kcr_cache.c:149-169 | L2 hits, L3 hits and misses over a run add up to the lookups made |
| Statistics.TotalsOfRun | drivers/kcr/kcr_debugfs.c:58-65 | the five totals are the outcomes of all lookups, and the removals, of the whole run on all CPUs, modulo 2^64 |
| Statistics.RateOfRun | drivers/kcr/kcr_debugfs.c:74-79 | in every run of fewer than 2^64 lookups the printed rate is the exact floor percentage of lookups answered, if and only if their number times 100 is below 2^64; none is printed if and only if there was no lookup |
| Lifecycle.KcrModule.constructor | drivers/kcr/kcr_main.c:97-100 | before kcr_init nothing is held |
| Lifecycle.KcrModule.KcrInit | drivers/kcr/kcr_main.c:91-175 | for every outcome of the allocators: disabled does nothing, success gives the initial cache state, each failure releases exactly what it had acquired and ends disabled |
| Lifecycle.KcrModule.KcrExit | drivers/kcr/kcr_main.c:189-209 | all three pointers end NULL, their blocks are freed once and the tables are gone, after any outcome |
| Lifecycle.KcrModule.SetEnable | drivers/kcr/kcr_main.c:31 | the parameter stays writable: KCR counts as enabled if and only if it is on and the region is held |
| Lifecycle.KcrModule.LoadUnload | drivers/kcr/kcr_main.c:72-75 | loading and unloading gives back every block, and KCR is enabled in between exactly when asked for and all allocations succeeded |
| SharedNode.LinkBothTiers | drivers/kcr/kcr_cache.c:327-328 | with one node in both tiers the L2 bucket goes on where the L3 bucket does; it is the new entry before its old contents if and only if both buckets held the same |
| SharedNode.UnlinkAfterStore | drivers/kcr/kcr_cache.c:241 | a node just stored is unlinked from L3 only: the L2 head still points at it and the L2 bucket stays as it is |
| SharedNode.UnlinkTakesOff | drivers/kcr/kcr_cache.c:365 | unlinking a node takes it off a list it is on if and only if its pprev is a place of that list |
| SharedNode.StoreIsLink | drivers/kcr/kcr_cache.c:192-204 | a store of a key neither bucket holds is exactly the two pushes |
| SharedLists.InvalidatePurgesL3 | drivers/kcr/kcr_cache.c:373-389 | over shared nodes, when the caller's L2 bucket holds nothing of the mm, its socket's L3 bucket is purged exactly and stays consistent, whatever other buckets its nodes stand in |
| SharedLists.PurgeList | drivers/kcr/kcr_cache.c:382-388 | the deletion pass purges any bucket along which the pprev fields are its own |
| SharedLists.StoreReplacesInL3 | drivers/kcr/kcr_cache.c:230-241 | over shared nodes a store replaces the L3 bucket's entry of the key, whichever CPU stored it, exactly as on a list of its own |
| SharedPair.PairRefines | drivers/kcr/kcr_cache.c:149-406 | every run of stores, invalidations and lookups on one CPU's L2 bucket and one L3 bucket, pointer by pointer, does what a machine on two chains does, up to the first write through a poisoned pprev, which comes at the same request |
| SharedPair.AgreesExactly | drivers/kcr/kcr_cache.c:327-328 | in every such run the L3 bucket is what a bucket of its own would be, the L2 bucket too if and only if no invalidation since the last store met an entry of its mm at the front, and no lookup goes on to L3 |
| SharedPair.FaultsExactly | drivers/kcr/kcr_cache.c:195-201 | when a request writes through a poisoned pprev: if and only if it stores the key, or invalidates the mm, of an entry an earlier invalidation left in L2 |
| SharedPair.DropMissesExactly | drivers/kcr/kcr_cache.c:358-389 | an invalidation leaves the caller's L2 bucket without a hit for the mm if and only if the bucket was empty or its first entry belonged to another mm; from L3 the mm is gone |
| SharedPair.StoreThenInvalidate | drivers/kcr/kcr_cache.c:363-369 | a run of two calls: what was just stored is found after its mm was invalidated, and the next invalidation of the mm or store of the key writes through a poisoned pprev |
| SharedPair.PairReadsItsWrites | drivers/kcr/kcr_cache.c:149-169 | in every such run a stored entry is found in L2 until it expires, unless the key is stored again or its mm invalidated |
| SharedStores.OwnEntryHitsL3 | drivers/kcr/kcr_cache.c:156-165 | after any stores of different keys of one L2 bucket each entry is found, in L2 if and only if its L3 bucket is that of the last store, and else by an L3 hit on the CPU's own entry |
| SharedStores.SecondStoreDropsFirst | drivers/kcr/kcr_cache.c:327-328 | two stores to one L2 bucket and different L3 buckets make the first entry an L3 hit for the CPU that stored it |
| SharedStores.ReadsAnother | drivers/kcr/kcr_cache.c:219-244 | a run of three stores after which a CPU's lookup of its own key misses L2 and returns what another CPU stored, whose L2 bucket holds two entries of the key |
| SharedStores.OtherCpuInvalidates | drivers/kcr/kcr_cache.c:373-389 | a run: CPU 1 stores, CPU 0 invalidates the mm; the L3 bucket is emptied, and CPU 1 still finds the entry in its L2 bucket |
| SharedStores.PromotionJoinsBuckets | drivers/kcr/kcr_cache.c:123-134 | promoting a node also redirects the L2 bucket of the CPU that stored it: afterwards both L2 buckets hold the same, and the L3 bucket has lost it |
| SharedStores.PromotionLendsAnEntry | drivers/kcr/kcr_cache.c:123-134 | such a run: the storing CPU ends up with an entry it never stored or looked up |

## Left out

- Promotion in the concurrent model: it holds the L2 lock only while it unlinks from L3, so the step machine has stores and invalidations only.
- Reclamation across both tiers: each tier is proved for nodes of its own; in the two-tier machine entries are never freed.
- One node in both tiers: modules SharedNode, SharedPair and SharedStores have it for lists and lookups; runs that mix several L3 buckets or CPUs with replacement, promotion and invalidation are covered by examples and by `SharedNode.UnlinkTakesOff`, not by a theorem on all runs.
- Cache.KcrCache.StoreResult: links a node of its own into each tier, where the code links one node into both.
- Cache.KcrCache.LookupUnified: promotion moves a node that stands in L3 only; in the code it also stands in its owner's L2.
- Cache.KcrCache.PromoteHit: with a node per tier; in the code the owner's L2 bucket is redirected as well.
- Cache.KcrCache.InvalidateRange: with a node per tier; in the code an entry at the front can stay in L2.
- SystemInvariant.LookupInv: for a node per tier.
- SystemInvariant.StoreInv: for a node per tier.
- SystemInvariant.InvalidateInv: for a node per tier.
- SystemInvariant.StepInv: for a node per tier.
- SystemInvariant.RunInv: for a node per tier.
- SystemTheorems.L3HitIsForeign: for a node per tier; what the code does is SharedStores.OwnEntryHitsL3.
- SystemTheorems.LonelyCpuHasNoL3Hit: for a node per tier; what the code does is SharedStores.OwnEntryHitsL3 and SharedPair.AgreesExactly.
- SystemTheorems.ReadYourWrites: for a node per tier; what the code does is SharedStores.ReadsAnother and SharedPair.PairReadsItsWrites.
- SystemTheorems.PromotionMovesOne: for a node per tier; what the code does is SharedStores.PromotionJoinsBuckets.
- SystemTheorems.PromotionKeepsContent: for a node per tier.
- SystemTheorems.PromotionIsInvisible: for a node per tier.
- SystemTheorems.InvalidationReach: for a node per tier; what the code does for the caller is SharedPair.DropMissesExactly.
- SystemTheorems.AtMostOneLive: for a node per tier; SharedStores.ReadsAnother ends with two entries of one key in an L2 bucket.
- SystemTheorems.InvalidationIsExact: for a node per tier; what the code does is SharedPair.AgreesExactly.
- SystemTheorems.MissesUntilRefilled: for a node per tier; what the code does is SharedPair.DropMissesExactly.
- Reach.StoreReach: for a node per tier; SharedStores.ReadsAnother shows a CPU whose L2 entry is lost to it.
- Reach.NeighboursFind: for a node per tier.
- Reach.LookupReach: for a node per tier; what the code does is SharedStores.PromotionJoinsBuckets.
- Memory ordering: every write of the step machine is visible at once; the weaker ordering behind rcu_assign_pointer and rcu_dereference is not modelled.
- RcuLinearization.HitIsLinearizable: not for a section of 2^63 ticks or more, nor for an entry whose expiry is so far off that it becomes unexpired under the reader.
- Use of an entry after rcu_read_unlock, as lookup_unified's callers do: the code gives no guarantee and none is claimed.
- Calls that overlap: each call of the two-tier machine is one step pinned to one CPU; overlap is modelled within one tier only.
- Statistics.RateIsExact: assumes that the three totals add up below 2^64.
- Statistics.TotalsOfRun: counts modulo 2^64, as the counters do.
- Statistics.RateOfRun: for runs of fewer than 2^64 lookups; beyond that the total itself has wrapped.
- Buckets.Bucket.PurgeMm: the invalidation counter is raised once per table by the number of removals, not once per removal.
- this_cpu_inc on the address of another structure's field is read as raising the current CPU's counter.
- cpu_to_node is non-negative; what kzalloc, kvmalloc and the other allocators return is a parameter; alloc_percpu and kzalloc zero-fill.
- Memory reuse: a node in the step machine gets a new index when it is filled in; indices and entry numbers (`id`, `owner`, `born`, `slot`, `home`) are bookkeeping the code does not have.
- `retired` in a bucket lists the nodes handed to call_rcu, without the grace period; that is the step machine's part.
- The slot arrays ext_slots and ext_slot_size are one array of records that also shows the bytes behind the pointer.
- kcr_init's three resources are abstract blocks; the region's reference count, the debugfs result (ignored by the code) and the log are left out. kcr_exit frees neither entries nor slot blocks, and that is not tracked.
- Fingerprints: compute_fingerprint and crypto_compute_fingerprint rest on xxh64 and the crypto API, which are not part of this model; any 64-bit value may occur.
- drivers/kcr/kcr_mem.c, drivers/iommu/kcr_iommu.c, debugfs files, seq_file output and module parameters: I/O plumbing.
- should_cache and kcr_map_to_user: constant stubs. pid, pid_ns, flags and hit_count of an entry: written, never read.
- start and end of invalidate_range: unused by the code.
- Spinlock and interrupt details: a held bucket lock is a state of the writer; cycle counts and alignment have no behaviour.
