# Verified models of bounded concurrent caches

Eight container headers and a small number printer are modelled here, each with the property it exists for: a fixed
pool of nodes threaded into skip lists is a bounded map, a lookup with an outdated mask still answers for the current
table, approximate counters obey an exact conservation law, and concurrent histories linearize.

| module | models |
|---|---|
| `CacheNodes`, `PoolSteps` | the node pool of the OnCache family: shape of baskets, hash groups and three-level skip lists; the loops its caches share |
| `OnCacheMLRU` | `src/caches/oncachemlru.h`, one thread at a time |
| `BasketViews`, `MlruThreads` | the same cache under any number of threads, with a reader-writer lock for each basket |
| `Keys` | the order and hash of `TKey` |
| `SavedPath`, `OnCacheSMRU` | `src/caches/oncachesmru.h`: a search path that is saved, then repaired while a node is recycled |
| `LruCache`, `LruThreads`, `LruOrder`, `LruWaits`, `LruCircles` | HHVM's `ConcurrentLRUCache`, sequentially and under any number of threads: its laws, what its calls, list and map are in terms of a run, and when inserts wait for themselves or for each other |
| `Buckets`, `HashMap`, `HashThreads` | `tbb::concurrent_hash_map`: the arithmetic of lazy bucket splitting, its operations, their interleavings |
| `PriorityQueue`, `QueueRuns` | the batch handler of `tbb::concurrent_priority_queue`, and whole runs of submitted, batched and returned operations |
| `ThreadTable`, `TableGrowth`, `TableCopy` | `ets_base::table_lookup` under any number of threads, the sizes of its tables, and the copy of such a container |
| `HandleCache`, `HandleThreads`, `HandleRuns` | `tbb::concurrent_lru_cache`, and what a run means to those who call `operator[]` |
| `Aggregator` | `tbb::aggregator` |
| `Decimal` | the decimal printer and parser |

## How things are represented

- Pool pointers are pool indices and -1 is the null pointer, for nodes, keys and data alike. A key of the OnCache
  family is its rank in the order of `compare`; `Keys.CmpIsRankOrder` shows that `TKey` has such ranks, and that keys
  which compare equal have equal hashes. The hash is an arbitrary function.
- A class method is proved against a relation or a function on values; the state machines for threads take those
  relations as their atomic steps. A step is one atomic operation or one region under a lock; in `MlruThreads` taking
  a lock and giving it back are two steps, and other threads work in between. Weak memory orderings are not
  represented.
- The state machines quantify over every number of threads and every interleaving. `Begun`/`Then` histories, traces
  and `QueueRuns.Run` are the runs; fields marked as history (tickets, residencies, call counts, ghost sequences) only
  name things for the statements.
- The abstract hash map inside `LruThreads` is a map whose elements carry a reader-writer lock; an accessor that a
  caller of `find` keeps is a thread of its own.
- `LruCache`: the key of a list node is a constant, since the program never reassigns it.
- `MlruThreads`: a thread works on the pool as it saw it when it took its lock, and writes back only what it changed.
  `clear()` of a node that was just unlinked belongs to the unlinking step; nobody else looks at the node then.
- `OnCacheMLRU`: the landscape counter is one per cache instead of one per thread; in the concurrent claim step any
  slot may be drawn, because other threads may move the counter in between. The parts that `setOnBasketHead` and
  `setOther` have in common are one method.
- `OnCacheSMRU`: answers 1 and -1 of `setll`, which `allocNode` treats alike, are one answer. The counter `used` of an
  entry that is found by `getData` is not raised, because `getData` is not in this model; which node is
  recycled does not depend on the counters, as `Draw` shows. The program's `void` insertion has a ghost result here that
  tells how it ended.
- `HashThreads`: runs begin with any map that no call is using, new or not. A miss under a mask that splits nothing
  off is answered when the mask is loaded, any other one when the split bucket is looked at; these are its
  linearization points.
- `HashMap`: the segments of the table are one sequence of buckets, and `SegmentHolds` relates bucket numbers to
  segments. A chain is a sequence of nodes, front first.
- `ThreadTable`: runs begin with any container that no thread is using: a new one, one that was used before, or a
  copy.
- `QueueRuns`: what an aggregator guarantees is the guard of the steps: a batch takes operations that wait, each once,
  and a call returns when its operation was answered.
- `LruCache`: `insert` tells by `blocked` that its second eviction would wait for the element that it has locked
  itself.
- `PriorityQueue`: the list of postponed pops is a sequence whose next element is the last; pushes cannot fail.
- `HandleThreads`: a handle variable and the call of `operator[]` that is to fill it are one user.

## Where the code and its documentation disagree

- `oncachesmru.h:24-25` promises not to evict a node whose counter reached `uselessness`. The `continue` at line 201
  goes to the loop condition, so the node is recycled anyway. `OnCacheSMRU.InsertNode` says exactly when such an entry
  is evicted: if and only if the key is new and the next node of the pool holds one (`Hot`). `OnCacheSMRU.HotExample`
  is a pool of one node: key 1 is inserted twice, and key 2 takes its place.
- `oncachesmru.h:390-397` does not redirect `updatePathOutH` when the recycled node is the head of a group of at least
  two and its own chain pointer is the slot that the new key needs. The node is cleared, so the slot is a null pointer
  of a node in no list. A key with a group of its own is then stored in that node, to which nothing leads
  (`SavedPath.LosesEntry`); for a key in front of its group line 280 follows the null pointer
  (`SavedPath.FollowsNull`). Both are exact conditions on the cache before the call; `OnCacheSMRU.LossExample` and
  `OnCacheSMRU.NullExample` reach such caches from the constructor.
- `enumerable_thread_specific.h:97-98` says that each array is half the size of its predecessor, and lines 197-199 that
  a new table has double the size. A swap does that if and only if the ticket that asks for it is at most the size of
  the root (`TableGrowth.SwapHalves`), and in a run all arrays are halves if and only if all swaps did
  (`HalvesIff`). In a new container it can fail if and only if five threads use it (`HalvesFailIff`): five first
  lookups take their tickets, the first one swaps in 4 slots, the last one 16 (`FromFourToSixteen`). What always holds
  is that sizes strictly decrease (`TablesStayHalfEmpty`).
- With `m_maxSize` 0 HHVM's cache holds one element and reports none (`LruCache.SizeIsExact`). An `insert` that lowers
  `m_size` evicts the last node of the list while it has its own element locked; if that is its own node, it waits for
  itself for ever (`LruWaits.WaitIsForEver`). For calls made one after the other this cannot happen (`SizeIsExact`,
  `Perform`). For concurrent calls it can, if and only if `m_maxSize` is at least 1 and two threads may be inside
  `insert` at once (`LruWaits.SelfWaitIff`). With three of them, and only then, inserts can also wait for each other in
  a circle (`LruCircles.CircleIff`).
- With a history limit of 0 `tbb::concurrent_lru_cache` takes the last entry of an empty list (`NeedsHistory`).
- `printULong` (`specstatic.h:84-93`) promises to change nothing behind `*end`. For n = 0 and `start == end` it writes
  `'0'` without a look at `end` and the terminator one byte behind `*end`: `Decimal.OverrunExample`;
  `Decimal.PrintULong` has the exact condition.
- `rehash_bucket` shifts a 32-bit 1 (`concurrent_hash_map.h:698`), which is defined for bucket numbers below 2^32 only
  (`HashMap.TopBit`).
- `printULong` and `stoll` agree on numbers of up to 19 digits only: a number with 20 digits loses its last digit
  (`RoundTrip`).

## Model

| member | source | states |
|---|---|---|
| CacheNodes.UnlinkInner | src/caches/oncachemlru.h:505-536 | redirecting every level pointer that met a non-head node keeps the whole shape without that node |
| CacheNodes.UnlinkHead | src/caches/oncachemlru.h:444-503 | promoting the next node, or closing the chain over an emptied group, keeps the whole shape without the head |
| CacheNodes.LinkInner | src/caches/oncachemlru.h:345-356 | splicing a node in behind the path, up to its own height, keeps the shape |
| CacheNodes.LinkHead | src/caches/oncachemlru.h:291-316 | a new head in front of a group, with the old head lowered, keeps the shape |
| CacheNodes.LinkGroup | src/caches/oncachemlru.h:271-289 | a new one-node group in its place in the hash chain keeps the shape |
| CacheNodes.LevelIsSubsequence | src/caches/oncachemlru.h:47-75 | walking level h of a group meets exactly the nodes tall enough for it, in the order of level 0 |
| CacheNodes.WalkMembers | src/caches/oncachemlru.h:104-117 | a walk along a level meets exactly the later nodes of the group that reach the level |
| CacheNodes.HeadsMembers | src/caches/oncachemlru.h:88-94 | following a basket meets exactly the heads of its groups |
| CacheNodes.BasketHolds | src/caches/oncachemlru.h:85-121 | a node is found from basket i exactly if it is linked and its hash selects i |
| CacheNodes.EvictsContents | src/caches/oncachemlru.h:213-225 | a recycled node takes exactly its own key out of the cached map |
| CacheNodes.StoresContents | src/caches/oncachemlru.h:271-289 | a published node adds or replaces exactly its own key |
| CacheNodes.ContentsSize | src/caches/oncachemlru.h:170-183 | there are as many cached keys as linked nodes, so at most the capacity |
| PoolSteps.SearchPath | src/caches/oncachemlru.h:320-344 | the descent finds the node of the key, or on each level the last node below the key, and then the key is absent |
| PoolSteps.FindPredecessors | src/caches/oncachemlru.h:505-527 | the search finds the predecessor of a node on every level that the node reaches |
| PoolSteps.Bypass | src/caches/oncachemlru.h:529-534 | the node is taken off every level and nothing else changes |
| PoolSteps.Splice | src/caches/oncachemlru.h:349-356 | the node stands behind the path on the levels up to its height and nothing else changes |
| PoolSteps.DemoteHead | src/caches/oncachemlru.h:291-316 | the new head gets what the old one led to above its new height, and leads to the old one below |
| PoolSteps.Promote | src/caches/oncachemlru.h:448-458 | the next node gets the chain pointer and, above its own height, the level pointers of the old head |
| OnCacheMLRU.OnCacheMLRU.GetData | src/caches/oncachemlru.h:85-121 | the hash walk and the three-level descent return exactly the map lookup |
| OnCacheMLRU.OnCacheMLRU.DelInSameHashCmp3 | src/caches/oncachemlru.h:505-536 | takes a non-head node off every level |
| OnCacheMLRU.OnCacheMLRU.DelOnBasketHead | src/caches/oncachemlru.h:444-464 | takes a node of the basket's first group out, keeping the shape of the rest and every other entry |
| OnCacheMLRU.OnCacheMLRU.DelWithOtherHash | src/caches/oncachemlru.h:466-503 | the same for a later group of the basket |
| OnCacheMLRU.OnCacheMLRU.SetOnBasketHead | src/caches/oncachemlru.h:291-357 | links or replaces in the basket's first group |
| OnCacheMLRU.OnCacheMLRU.SetOther | src/caches/oncachemlru.h:359-442 | links or replaces in a later group, or adds a group |
| OnCacheMLRU.OnCacheMLRU.InsertN | src/caches/oncachemlru.h:271-289 | the locked region stores exactly the new entry and keeps the shape |
| OnCacheMLRU.OnCacheMLRU.Evict | src/caches/oncachemlru.h:213-225 | the locked region takes exactly the node's entry out and keeps the shape |
| OnCacheMLRU.OnCacheMLRU.Claim | src/caches/oncachemlru.h:198-211 | claims a free node: the next slot if it is free, slot 0 twice in a row after a wrap |
| OnCacheMLRU.OnCacheMLRU.InsertNode | src/caches/oncachemlru.h:123-132 | the map afterwards is (old map minus the recycled node's key)[key := data], with at most capacity entries |
| MlruThreads.StepSound | src/caches/oncachemlru.h:85-132 | every step of every thread, lock steps included, keeps the invariant, does to the map what its event says, and a read answers the map lookup at the moment of its answer |
| MlruThreads.RunLinearizes | src/caches/oncachemlru.h:85-132 | every run is a sequential map with evictions, and every getData answers from it |
| MlruThreads.EachCallOnce | src/caches/oncachemlru.h:85-132 | each insertNode(key, data) that is called publishes this entry once between its start and its return, after at most one eviction; each getData(key) that is called answers once, for this key |
| MlruThreads.CallsGoOn | src/caches/oncachemlru.h:85-240 | outside of its two locked regions a call can take its next step unless it waits for a free slot or for the lock of a basket |
| MlruThreads.ReadsLatest | src/caches/oncachemlru.h:85-121 | getData yields null or the data most recently published for the key |
| MlruThreads.RunKeepsOrder | src/caches/oncachemlru.h:198-289 | in every run: full shape, one owner a node, writers alone with their baskets, each key linked once and in the basket of its hash, never more than capacity entries |
| BasketViews.MergedShape | src/caches/oncachemlru.h:85-87 | a pool with one basket from one well-formed pool and the others from another one is well-formed |
| BasketViews.EvictIsAtomic | src/caches/oncachemlru.h:213-222 | what the locked region of allocNode writes back, computed from the pool as it was when the lock was taken, evicts exactly the node's entry from the pool as it is then |
| BasketViews.StoreIsAtomic | src/caches/oncachemlru.h:271-289 | the same for insertN: exactly the new entry is stored |
| BasketViews.ReadIsAtomic | src/caches/oncachemlru.h:85-121 | what getData answers depends on the basket of its key alone |
| Keys.CmpIsRankOrder | src/i/ikey.h:76-92 | cmp is a strict total order by rank; keys that compare equal are equal and have equal hashes |
| Keys.HashFits | src/i/ikey.h:76-82 | the hash is the sum of the words while that is below 2^63 - 1, and stays below 2^63 although the sum may not |
| SavedPath.PathWithout | src/caches/oncachesmru.h:412-452 | replacing a deleted path node by its predecessors makes every level end again at the last node below the key |
| SavedPath.TopOnPath | src/caches/oncachesmru.h:412-425 | a node first met on the path at level h reaches no higher, and the path node above is a start for finding its predecessors |
| SavedPath.TopBehindPath | src/caches/oncachesmru.h:522-536 | a node first met right behind the path reaches no higher and is on no level of the path: the repath branch there is dead |
| SavedPath.SwapShape | src/caches/oncachesmru.h:219-235 | a head that takes over its successor's entry and links leaves the shape without the successor's node |
| SavedPath.SwapPath | src/caches/oncachesmru.h:229-231 | and the path that went through the successor goes through the head |
| SavedPath.SwapContents | src/caches/oncachesmru.h:219-235 | and only the head's old key is gone from the map |
| SavedPath.RekeyHead | src/caches/oncachesmru.h:213-218 | a head may take a new entry in place if it stays below the rest of its group |
| SavedPath.ReadyWithoutHead | src/caches/oncachesmru.h:386-404 | after the head of another group left, path or slot are right again unless the slot was that head and its group lives on |
| SavedPath.ReadyWithoutInner | src/caches/oncachesmru.h:405-408 | after a non-head of another group left, path and slot are still right |
| SavedPath.SlotUnique | src/caches/oncachesmru.h:333-335 | there is only one slot for a hash |
| OnCacheSMRU.OnCacheSMRU.Setll | src/caches/oncachesmru.h:325-375 | finds the key, or proves it absent and saves the slot and the path its answer needs |
| OnCacheSMRU.OnCacheSMRU.DelInSameHash | src/caches/oncachesmru.h:515-540 | deleting any non-head node keeps the shape and repairs the saved path on every level |
| OnCacheSMRU.OnCacheSMRU.DelInSameHashPathOut | src/caches/oncachesmru.h:412-452 | the same for a node on the path |
| OnCacheSMRU.OnCacheSMRU.DelInSameHashSuperFast | src/caches/oncachesmru.h:454-484 | the same for a node right behind the path |
| OnCacheSMRU.OnCacheSMRU.DelInSameHashCmp3 | src/caches/oncachesmru.h:487-512 | takes a non-head node off every level, keeping the shape of the rest |
| OnCacheSMRU.OnCacheSMRU.SwapWithSuccessor | src/caches/oncachesmru.h:219-235 | the head takes over its successor's entry and links, and the path is redirected |
| OnCacheSMRU.OnCacheSMRU.DelWithOtherHash | src/caches/oncachesmru.h:378-410 | takes a node of another group out and leaves path and slot right, except in the stale case |
| OnCacheSMRU.OnCacheSMRU.Draw | src/caches/oncachesmru.h:193-203 | the next node of the pool is taken whatever its counter says; a counter that reached uselessness is lowered by it and no other changes |
| OnCacheSMRU.OnCacheSMRU.RecycleHead | src/caches/oncachesmru.h:219-235 | recycling the head of the key's group loses only the head's entry and keeps the path right |
| OnCacheSMRU.OnCacheSMRU.RecycleInner | src/caches/oncachesmru.h:237-246 | recycling another node of the key's group loses only its entry and keeps path and slot right |
| OnCacheSMRU.OnCacheSMRU.RecycleOther | src/caches/oncachesmru.h:247-254 | recycling a node of another group loses only its entry, and leaves path and slot right except in the stale case |
| OnCacheSMRU.OnCacheSMRU.ReplaceHead | src/caches/oncachesmru.h:213-218 | the map loses the head's key and gets the new entry, the shape is kept |
| OnCacheSMRU.OnCacheSMRU.Link | src/caches/oncachesmru.h:259-314 | linking as setll's answer says adds exactly the new entry and keeps the shape; through a stale slot it ends in a node that leads to itself, or at a null pointer |
| OnCacheSMRU.OnCacheSMRU.AllocNode | src/caches/oncachesmru.h:190-315 | stored: the map is (old map minus the victim's key) plus the new entry, and the counters change exactly at the victim, or at the next node of its group if the victim was the head and the new key is above that node; if the victim's cleared chain pointer is the slot, the entry is lost (answer 4) or a null pointer followed (answer 3) |
| OnCacheSMRU.OnCacheSMRU.InsertNode | src/caches/oncachesmru.h:120-139 | a cached key gets its data in place; a new one replaces the entry of the next pool node, is lost if and only if LosesEntry held before, and follows a null pointer if and only if FollowsNull did; an entry whose counter reached uselessness is evicted if and only if the key is new and the next node holds such an entry |
| OnCacheSMRU.OnCacheSMRU.Replace | src/caches/oncachesmru.h:130-133 | the data of a cached key are exchanged and its counter, and no other, becomes uselessness |
| OnCacheSMRU.HotExample | src/caches/oncachesmru.h:24-25 | in a pool of one node, key 1 inserted twice has a counter of uselessness, and inserting key 2 evicts it |
| OnCacheSMRU.LossExample | src/caches/oncachesmru.h:390-404 | three insertions after the constructor, a fourth one loses its entry |
| OnCacheSMRU.NullExample | src/caches/oncachesmru.h:275-281 | three insertions after the constructor, a fourth one follows a null pointer |
| LruCache.ConcurrentLRUCache.Delink | src/caches/facebook/concurrent-lru-cache.h:355-361 | the doubly linked list loses exactly the node, which is marked as out of the list |
| LruCache.ConcurrentLRUCache.PushFront | src/caches/facebook/concurrent-lru-cache.h:365-371 | the node is the first of the doubly linked list |
| LruCache.ConcurrentLRUCache.Evict | src/caches/facebook/concurrent-lru-cache.h:375-392 | exactly the last key leaves list and map, unless the caller has locked that element; an empty list changes nothing |
| LruCache.ConcurrentLRUCache.Find | src/caches/facebook/concurrent-lru-cache.h:255-275 | answers the map lookup, moves the key to the front, and the list keeps its nodes |
| LruCache.ConcurrentLRUCache.Insert | src/caches/facebook/concurrent-lru-cache.h:279-325 | false and no change for a present key, else the state that the lemmas below speak of, with one new node at most; blocked exactly if it would evict its own locked element |
| LruCache.ConcurrentLRUCache.SnapshotKeys | src/caches/facebook/concurrent-lru-cache.h:345-351 | appends the keys, most recently used first |
| LruCache.ConcurrentLRUCache.Clear | src/caches/facebook/concurrent-lru-cache.h:329-341 | leaves an empty cache of size 0 |
| LruCache.ConcurrentLRUCache.ModelAgrees | src/caches/facebook/concurrent-lru-cache.h:100-115 | map and list hold the same keys, each once |
| LruCache.InsertKeepsMostRecent | src/caches/facebook/concurrent-lru-cache.h:279-325 | with maxSize at least 1, an insert keeps the maxSize most recently used keys and their values, and nothing else |
| LruCache.InsertShrinksOverfull | src/caches/facebook/concurrent-lru-cache.h:309-323 | an overfull cache with maxSize at least 1 loses one element net with every insert of a new key |
| LruCache.FoundAgrees | src/caches/facebook/concurrent-lru-cache.h:255-275 | find changes only the order of the keys |
| LruCache.SizeIsExact | src/caches/facebook/concurrent-lru-cache.h:187-189 | after any calls with an insert, size() is the number of elements if and only if maxSize is at least 1; no insert of calls made one after the other blocks itself |
| LruCache.Perform | src/caches/facebook/concurrent-lru-cache.h:255-325 | any calls, one after the other on one cache, go through the states of After and none blocks |
| LruThreads.StepKeepsInv | src/caches/facebook/concurrent-lru-cache.h:255-392 | every step of every thread keeps the invariant, and a full cache stays full |
| LruThreads.Conservation | src/caches/facebook/concurrent-lru-cache.h:279-325 | list length plus victims delinked before the own push = m_size + pushed and not counted + size taken and not evicted + evictions of an empty list; map size = list length plus elements on their way in and out |
| LruThreads.OverfillBound | src/caches/facebook/concurrent-lru-cache.h:290-322 | m_size plus pending increments is at most maxSize - 1 + the number of threads that may be inside insert |
| LruThreads.FullStaysFull | src/caches/facebook/concurrent-lru-cache.h:290-322 | once m_size has reached maxSize it never falls below it |
| LruThreads.NoEmptyEviction | src/caches/facebook/concurrent-lru-cache.h:375-381 | if maxSize is at least the number of threads inside insert, no eviction meets an empty list |
| LruThreads.Quiescence | src/caches/facebook/concurrent-lru-cache.h:183-189 | between operations map and list hold the same elements, m_size plus empty evictions of them, so exactly m_size under the condition above |
| LruThreads.LookupSucceeds | src/caches/facebook/concurrent-lru-cache.h:385-389 | the return called presumably unreachable is unreachable, and the element found is the victim's |
| LruThreads.NodesAreLive | src/caches/facebook/concurrent-lru-cache.h:264-272 | no node is used after it was freed, freed twice, or freed while in the list or in the map |
| LruThreads.OneHolder | src/caches/facebook/concurrent-lru-cache.h:281-305 | two threads never hold the same node outside the list |
| LruThreads.AccessorIsValid | src/caches/facebook/concurrent-lru-cache.h:255-275 | while a caller keeps the accessor of find the element stays in the map |
| LruOrder.CallsAreServed | src/caches/facebook/concurrent-lru-cache.h:255-288 | in every run a thread works on the key and the node of the call that it is in; an insert is rejected if and only if its key was there, and a find works on the node that its key had |
| LruOrder.ListIsRecency | src/caches/facebook/concurrent-lru-cache.h:262-273 | in every run the list is the replay of its uses: pushes and successful touches go to the front, evictions take the end, and a find that does not get the list mutex changes nothing |
| LruOrder.RecencySorted | src/caches/facebook/concurrent-lru-cache.h:355-371 | in every run each node of the list was used later than all behind it |
| LruOrder.EvictsLeastRecent | src/caches/facebook/concurrent-lru-cache.h:375-383 | an eviction takes the listed node that was used least recently |
| LruOrder.MapIsContents | src/caches/facebook/concurrent-lru-cache.h:279-288 | in every run the map holds what was inserted and not evicted since |
| LruOrder.Begins | src/caches/facebook/concurrent-lru-cache.h:255-288 | when insert and find can begin, and whether the key is then taken, rejected or found |
| LruOrder.CallsGoOn | src/caches/facebook/concurrent-lru-cache.h:375-392 | a call that has begun stands still if and only if its eviction waits for an element that is locked |
| LruWaits.SelfWaitIff | src/caches/facebook/concurrent-lru-cache.h:279-325 | some run from a new cache ends with an insert that waits for the element it has locked itself if and only if maxSize is at least 1 and two threads may be inside insert at once |
| LruWaits.WaitIsForEver | src/caches/facebook/concurrent-lru-cache.h:375-392 | whatever the threads do, that insert stays where it is and its element stays locked |
| LruWaits.RunNeverOver | src/caches/facebook/concurrent-lru-cache.h:309-323 | with maxSize 0, one thread, or one insert at a time, no insert finds m_size above maxSize, so none evicts a second time |
| LruWaits.ReachesWait | src/caches/facebook/concurrent-lru-cache.h:279-325 | the run: the cache is filled to one below maxSize, two inserts overfill it, the next insert lowers m_size, finds bring all other elements to the front, and it takes its own node |
| LruCircles.CircleIff | src/caches/facebook/concurrent-lru-cache.h:279-325 | some run from a new cache ends with inserts that wait for each other's elements in a circle if and only if maxSize is at least 1 and three threads may be inside insert at once |
| LruCircles.CircleIsForEver | src/caches/facebook/concurrent-lru-cache.h:375-392 | whatever the threads do, the inserts of a circle stay where they are |
| LruCircles.WaitedForTrims | src/caches/facebook/concurrent-lru-cache.h:297-305 | an insert that evicts before its push is waited for by no other eviction |
| LruCircles.RunExact | src/caches/facebook/concurrent-lru-cache.h:309-323 | with at most two threads inside insert, one at a time takes from m_size, and meanwhile m_size is maxSize and no increment is pending |
| Buckets.GrowKeepsHomes | src/intel/include/tbb/concurrent_hash_map.h:190-215 | a larger mask changes no node's nearest rehashed bucket |
| Buckets.RehashMovesHomes | src/intel/include/tbb/concurrent_hash_map.h:694-724 | rehashing a bucket takes over from its parent exactly the hashes that end in its number |
| Buckets.MovedThroughSplit | src/intel/include/tbb/concurrent_hash_map.h:263-282 | a hash has left the bucket of an old mask if and only if the first bucket that splits it off is rehashed |
| Buckets.SegmentHolds | src/intel/include/tbb/concurrent_hash_map.h:144-156 | each bucket number lies in exactly one segment, the one get_bucket computes |
| Buckets.MaskedIsAllocated | src/intel/include/tbb/concurrent_hash_map.h:234-240 | a hash cut by the mask lies in an allocated segment |
| HashMap.FillHolds | src/intel/include/tbb/concurrent_hash_map.h:694-724 | filling a bucket from its parent loses no node and puts each in its nearest rehashed bucket |
| HashMap.SearchIsLookup | src/intel/include/tbb/concurrent_hash_map.h:662-668 | a hit under any older mask is the map's value; a miss of a present key means that the splitting bucket is rehashed |
| HashMap.SearchOutcome | src/intel/include/tbb/concurrent_hash_map.h:1224-1250 | a miss without a collision proves the key absent from the current table |
| HashMap.NextMask | src/intel/include/tbb/concurrent_hash_map.h:265-271 | the loop finds the first larger mask that gives the hash another bucket |
| HashMap.ConcurrentHashMap.CheckMaskRace | src/intel/include/tbb/concurrent_hash_map.h:254-260 | reports a collision exactly if the first splitting bucket is rehashed, and never for an unchanged mask |
| HashMap.ConcurrentHashMap.Acquire | src/intel/include/tbb/concurrent_hash_map.h:676-686 | the bucket and its ancestors end up rehashed, recursively and with an end, and the contents stay |
| HashMap.ConcurrentHashMap.RehashBucket | src/intel/include/tbb/concurrent_hash_map.h:694-724 | the same for a marked bucket, whose topmost bit is within reach of the program's 32-bit shift if and only if its number is below 2^32 |
| HashMap.TopBit | src/intel/include/tbb/concurrent_hash_map.h:698 | the topmost bit of a bucket number, whose shift count fits 32 bits if and only if the number is below 2^32 |
| HashMap.ConcurrentHashMap.MoveNodes | src/intel/include/tbb/concurrent_hash_map.h:707-723 | each node of the parent that belongs to the bucket goes to its front, the others stay in order |
| HashMap.ConcurrentHashMap.InsertNewNode | src/intel/include/tbb/concurrent_hash_map.h:285-298 | the key is added, and the next segment is asked for exactly if the table is as full as its mask |
| HashMap.ConcurrentHashMap.EnableSegment | src/intel/include/tbb/concurrent_hash_map.h:190-215 | the mask grows from 1 to 255 and then doubles, and nothing moves |
| HashMap.ConcurrentHashMap.Lookup | src/intel/include/tbb/concurrent_hash_map.h:1209-1285 | find and insert with any older mask answer and change the current map exactly |
| HashMap.ConcurrentHashMap.EraseKey | src/intel/include/tbb/concurrent_hash_map.h:1337-1371 | erase with any older mask removes exactly the key and says whether it was there |
| HashThreads.StepSound | src/intel/include/tbb/concurrent_hash_map.h:1209-1285 | each step keeps the invariant, and its answer is what the call does to a plain map at that moment, also while a bucket with nothing to take over is rehashed beside readers of its parent |
| HashThreads.RunLinearizes | src/intel/include/tbb/concurrent_hash_map.h:1209-1285 | in every interleaving with rehashing and growth the answers are those of a plain map |
| HashThreads.EachCallOnce | src/intel/include/tbb/concurrent_hash_map.h:1209-1285 | each call of a thread has one event, of its own key and kind, between its start and its return; only a call on its way has none yet |
| HashThreads.EventsContinue | src/intel/include/tbb/concurrent_hash_map.h:1209-1285 | what has taken effect stays, so a call that begins after another one returned takes effect after it |
| HashThreads.CallsGoOn | src/intel/include/tbb/concurrent_hash_map.h:1209-1371 | a call that has its bucket can take its next step, and one that has not waits for its rehashing or for those who hold it |
| HashThreads.NewIsSettled | src/intel/include/tbb/concurrent_hash_map.h:302-309 | a new map, made for any number of buckets, is one that the runs may begin with |
| HashThreads.NodesAreHome | src/intel/include/tbb/concurrent_hash_map.h:694-724 | in every run a bucket holds exactly the entries of the map whose nearest rehashed bucket it is |
| HashThreads.PresentMeansRestart | src/intel/include/tbb/concurrent_hash_map.h:1239-1250 | if the key is present when the mask is loaded although the search missed it, the look at the split bucket sends the call back with that mask, whenever it comes |
| HashThreads.MissIsFinal | src/intel/include/tbb/concurrent_hash_map.h:1246-1251 | a key missed in its nearest rehashed bucket is not in the map |
| PriorityQueue.ConcurrentPriorityQueue.HandleOperations | src/intel/include/tbb/concurrent_priority_queue.h:388-469 | the results of every batch are those of some order of its operations on a sequential max-priority queue, which ends with the same elements; the heap covers all of data |
| PriorityQueue.ConcurrentPriorityQueue.Heapify | src/intel/include/tbb/concurrent_priority_queue.h:472-486 | every element joins the heap and none is lost |
| PriorityQueue.ConcurrentPriorityQueue.Reheap | src/intel/include/tbb/concurrent_priority_queue.h:490-507 | the top leaves, the rest is a heap up to the mark, no other element is lost |
| PriorityQueue.TopIsMax | src/intel/include/tbb/concurrent_priority_queue.h:456-457 | the root of a heap is a maximum |
| PriorityQueue.TrackFastPop | src/intel/include/tbb/concurrent_priority_queue.h:407-416 | popping a last pushed element above the top is a legal pop right after its push |
| PriorityQueue.TrackTopPop | src/intel/include/tbb/concurrent_priority_queue.h:456-461 | popping the top before the waiting pushes take effect is a legal pop |
| PriorityQueue.TrackLastTopPop | src/intel/include/tbb/concurrent_priority_queue.h:456-461 | the same when the top is the only heap element |
| PriorityQueue.TrackHeaplessPop | src/intel/include/tbb/concurrent_priority_queue.h:456-461 | the same when there is no heap element at all |
| PriorityQueue.TrackFailedPop | src/intel/include/tbb/concurrent_priority_queue.h:442-444 | a pop fails only where the sequential queue is empty |
| QueueRuns.RunLinearizes | src/intel/include/tbb/concurrent_priority_queue.h:388-469 | in every run of batches the answered operations, each once and with its answer, are a sequential execution that ends with what the queue holds |
| QueueRuns.RealTimeOrder | src/intel/include/tbb/concurrent_priority_queue.h:388-469 | a call that returned before another one was submitted takes effect before it |
| ThreadTable.StepKeepsInv | src/intel/include/tbb/enumerable_thread_specific.h:171-241 | every step of every thread keeps the invariant |
| ThreadTable.TablesStayHalfEmpty | src/intel/include/tbb/enumerable_thread_specific.h:197-224 | each table has keys in at most half of its slots, and sizes strictly decrease along next |
| ThreadTable.ProbesEnd | src/intel/include/tbb/enumerable_thread_specific.h:180-240 | no probe loop has ever looked at more than half of its table |
| ThreadTable.CreatedOnce | src/intel/include/tbb/enumerable_thread_specific.h:200-203 | create_local runs at most once for a thread, and has run once when its lookup returns |
| ThreadTable.ReturnsOwnElement | src/intel/include/tbb/enumerable_thread_specific.h:183-240 | every lookup of a thread returns its own first element, which is no other thread's, and says exists if and only if the thread had it when the call began, that is, if create_local did not run in this call |
| ThreadTable.LookupsGoOn | src/intel/include/tbb/enumerable_thread_specific.h:171-241 | no step of a lookup waits |
| ThreadTable.FoundIsMovedUp | src/intel/include/tbb/enumerable_thread_specific.h:183-240 | when a lookup returns, the key is in a table no older than the root that the call began with |
| ThreadTable.EmptyEndsTable | src/intel/include/tbb/enumerable_thread_specific.h:180-183 | an empty slot on the probe sequence proves the key absent from the table |
| ThreadTable.HalfFull | src/intel/include/tbb/enumerable_thread_specific.h:197-199 | the tickets of the keys of a table fit into half of its size, so the keys do |
| ThreadTable.PassedIsShort | src/intel/include/tbb/enumerable_thread_specific.h:232-240 | a probe sequence meets an empty slot within half of the table, wrap-around included |
| ThreadTable.NewIsSettled | src/intel/include/tbb/enumerable_thread_specific.h:116 | a new container is one that the runs may begin with |
| TableGrowth.SwapHalves | src/intel/include/tbb/enumerable_thread_specific.h:204-224 | a table swapped in over a root has double its size if and only if the ticket is at most the size of the root |
| TableGrowth.HalvesIff | src/intel/include/tbb/enumerable_thread_specific.h:97-98 | after any run each array is half the size of its predecessor if and only if that was so at the start and every swap kept to this condition |
| TableGrowth.FromFourToSixteen | src/intel/include/tbb/enumerable_thread_specific.h:204-224 | five first lookups of a new container leave arrays of 16 and 4 slots |
| TableGrowth.HalvesFailIff | src/intel/include/tbb/enumerable_thread_specific.h:97-98 | in a new container some run breaks the halves if and only if at least five threads use it |
| TableCopy.TableElementwiseCopy | src/intel/include/tbb/enumerable_thread_specific.h:122-148 | the copy has one table of the root's size with a copy of the element of each thread that has one, each made once and no other, and is itself a container that lookups may go on with |
| TableCopy.FindPlace | src/intel/include/tbb/enumerable_thread_specific.h:135-144 | the probing for a place ends, at the key or at the first empty slot of its probe sequence |
| TableCopy.AddKeepsTable | src/intel/include/tbb/enumerable_thread_specific.h:137-140 | an entry put there leaves every entry within reach of its own probe sequence |
| TableCopy.CopiedOnce | src/intel/include/tbb/enumerable_thread_specific.h:131-143 | no element is copied twice, although older tables repeat entries of newer ones |
| TableCopy.LookupInCopy | src/intel/include/tbb/enumerable_thread_specific.h:122-241 | in every run on the copy a thread gets the copy of its element back, with exists set, and creates no other |
| TableCopy.PosNext | src/intel/include/tbb/enumerable_thread_specific.h:135 | stepping on with the mask gives the next slot of the probe sequence |
| HandleCache.ConcurrentLruCache.RetrieveSerial | src/intel/include/tbb/concurrent_lru_cache.h:240-257 | a record gains a reference and leaves the history; a new one asks for its value |
| HandleCache.ConcurrentLruCache.SignalEndOfUsageSerial | src/intel/include/tbb/concurrent_lru_cache.h:259-280 | a record loses a reference; the last one puts it in front of the history, from whose end the surplus is evicted |
| HandleThreads.StepKeepsInv | src/intel/include/tbb/concurrent_lru_cache.h:89-99 | every step keeps the invariant |
| HandleThreads.CountersCountHandles | src/intel/include/tbb/concurrent_lru_cache.h:240-280 | a counter is the number of live handles and retrievals under way; a record is in the history if and only if it is 0; the history keeps its limit |
| HandleThreads.HandlesAreGood | src/intel/include/tbb/concurrent_lru_cache.h:89-99 | no handle dangles, its value was computed exactly once for this residency, and dropping it cannot fail |
| HandleThreads.NeverTwice | src/intel/include/tbb/concurrent_lru_cache.h:92-94 | who is to compute a value is the only one, and it has not been computed |
| HandleThreads.EvictsOldest | src/intel/include/tbb/concurrent_lru_cache.h:267-276 | only the drop of a last handle evicts, and only the record without handles that was released longest ago |
| HandleRuns.HandleOfItsCall | src/intel/include/tbb/concurrent_lru_cache.h:89-99 | a handle that operator[](k) returned, however often it was moved, refers to the record that k had then and reads f(k); a handle that was moved away or dropped is empty |
| HandleRuns.CallsGoOn | src/intel/include/tbb/concurrent_lru_cache.h:89-99 | a call computes and returns, or returns at its next look at the flag, or waits for another call that is about to set it |
| HandleRuns.EvictsLongestUnused | src/intel/include/tbb/concurrent_lru_cache.h:267-276 | in terms of the drops of the run: the evicted key has no handles, and its last handle was dropped before that of every other such key |
| HandleRuns.EvictsIffFull | src/intel/include/tbb/concurrent_lru_cache.h:267-276 | a record is evicted if and only if a last handle is dropped while the history is full |
| HandleThreads.NeedsHistory | src/intel/include/tbb/concurrent_lru_cache.h:267-275 | dropping a last handle works if and only if the limit is at least 1 |
| HandleThreads.LimitZeroFails | src/intel/include/tbb/concurrent_lru_cache.h:267-275 | with limit 0 the drop of the first handle fails |
| Aggregator.StepKeepsInv | src/intel/include/tbb/aggregator.h:108-177 | every step of every thread keeps the invariant |
| Aggregator.OneWaiter | src/intel/include/tbb/aggregator.h:158-163 | at most one thread waits to handle, and one does if and only if the mailbox is not empty |
| Aggregator.OneHandler | src/intel/include/tbb/aggregator.h:149-177 | at most one thread handles although handler_busy is set by a plain store, and one does if and only if the flag is set |
| Aggregator.ExactlyOnce | src/intel/include/tbb/aggregator.h:108-135 | every returned call had its operation run exactly once, every pending one at most once and not before it was handed over |
| Aggregator.RunsMatchCalls | src/intel/include/tbb/aggregator.h:108-135 | the same of the calls and runs that the steps of a run make |
| Aggregator.RunsInsideItsCall | src/intel/include/tbb/aggregator.h:73-88 | a body runs only while its thread is inside execute and its status is not set |
| Aggregator.NextIsAlive | src/intel/include/tbb/aggregator.h:82-86 | the handler reads my_next only of operations whose threads have not returned |
| Aggregator.OwnOperationIsDone | src/intel/include/tbb/aggregator.h:123-129 | the handling thread's own operation is finished before it returns |
| Aggregator.SomeoneCanMove | src/intel/include/tbb/aggregator.h:123-134 | while a call is pending some thread inside execute can take a step |
| Decimal.Stoll | src/spec/specstatic.h:44-55 | the number that the leading digits make, at most 19 and at most len of them, if it is below 2^63, else 2^63 - 1; no step overflows 64 bits |
| Decimal.PrintULong | src/spec/specstatic.h:84-113 | writes the decimal digits that fit and a terminating 0, nothing else; nothing behind *end if and only if n is not 0 or there is room before end |
| Decimal.OverrunExample | src/spec/specstatic.h:91-93 | for 0 and an empty buffer the byte behind *end is overwritten |
| Decimal.RoundTrip | src/spec/specstatic.h:44-113 | a printed number starts its string with its own digits if and only if it is below 10^19, else the last digit is lost and what is left is below 2^63 |
| Decimal.PrintThenParse | src/spec/specstatic.h:44-113 | the two methods one after the other on one buffer give n below 2^63, 2^63 - 1 below 10^19, and n / 10 from there on |

## Left out

- `src/caches/oncachemmru.h`: the link surgery of MLRU; its second-chance counter does not change which node is taken.
- `getData` of `oncachesmru.h`: the walk of `OnCacheMLRU.GetData`, which also counts.
- Reference counts of shared pointers, allocators, exceptions and failing pushes.
- Weak memory orderings: each locked region or atomic operation is one step.
- Progress: the lemmas named `CallsGoOn` and `LookupsGoOn` say when a step can be taken, not that every call ends; for
  the aggregator only the absence of a lost wake-up is shown, and in `MlruThreads` that the two locked regions end is
  left to the termination of the methods of `OnCacheMLRU`.
- OnCacheSMRU.OnCacheSMRU.InsertNode: after Lost nothing is promised of later calls. When the node of the lost entry
  is drawn again, its deletion looks for it in lists that do not hold it: it reaches the end of the hash chain
  (`oncachesmru.h:382-404`), or works on the group that has the same hash by then.
- Decimal.PrintULong: the byte behind `*end` has to exist if it is written; what a write outside of any buffer does is
  not modelled.
- `LruThreads`: the values of the elements, of which a node stands for the one that its insert brought, and `clear`,
  which is not thread safe; both are in `LruCache`.
- `HashThreads`: item locks, `exclude` by accessor, iterators, `rehash`, and the condition under which a thread asks
  for a new segment; growth may happen at any time. The nodes of a bucket move in one step, at which the parent is
  held alone, or with readers if there is nothing to move. Who recursively rehashes which bucket is left open.
- HashMap.ConcurrentHashMap.RehashBucket: bucket numbers are unbounded, while the program's 32-bit shift limits them
  to those below 2^32; `TopBit` states that limit.
- `HashMap`: the element count may not fall behind the mask in between, because one thread works at a time.
- `tbb::spin_rw_mutex`, `internal/_aggregator_impl.h` and the flow graph are not part of this model.
- `table_swap` and `table_clear` of `enumerable_thread_specific.h`, and its specialization for native thread-local
  storage.
- The second overload of `stoll`, which advances a pointer.
- `src/i/ikey2.h`: string keys; order and hash are arbitrary except in `Keys`.
- Configuration, files, system classes, testers, timing, sockets, OpenCL, `parallel_do`, blocked ranges,
  `flow_graph.h`, `concurrent_vector.h`.
