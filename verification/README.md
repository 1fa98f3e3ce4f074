# WALDE, verified

WALDE is a concurrent, scan-resistant cache engine: sixty-four cache stripes share one slab of
nodes; entries evicted from a stripe travel through a bounded ring and a drainer thread into a
second tier; a write-through backend holds the truth. This project models that engine, its
approximate counters, its baselines and its measuring tools in Dafny, and proves what they
promise. The command `dafny verify dfyconfig.toml` checks the whole project.

## How the model is layered

Each stateful component appears twice: as a class that works as the source does (pointer writes in
a shared array, ring positions, packed words, counters), and as a value with a pure step function.
Every method of the class is proved equal to a step of the value; the theorems about runs are
proved on the values.

- **Slab** — `FreeChain`, `SlabProtocol`, `SlabSafety`, `SlabRuns`, `SlabAllocator`. `SlabProtocol` is the lock-free free list as a
  transition system: any number of threads, one step per atomic access, swaps that may fail
  spuriously, handing a slot from one thread to another. The head word carries the 32-bit tag.
  `SlabSafety` says exactly which runs are in order; `SlabRuns` has particular ones.
  `SlabAllocator` is the object as one uninterrupted call sees it; the steps of one thread in a row do
  the same to its words.
- **Lists and stripe** — `LruList`, `StripePolicy`, `StripeTheorems`, `StripeLayout`, `CacheStripe`. The three
  intrusive lists lie in the slab's own array. `CacheStripe` keeps lists, tags, key index, free list and
  sketch together, refines `StripePolicy`, and touches only its own and free slots.
- **What a stripe means** — `StripeHistory` (what its sketch has counted, from the operations alone), `StripeReference` and
  `StripeRefinement` (a reference without lists, in which residents carry the time they were last touched; the
  lists refine it), `StripeMap` (without pressure stripe and cache are a map).
- **Sixty-four stripes** — `StripedCache` (values), `StripedObject` (the objects over one slab and one ring),
  `SlabHeadroom` (puts interrupted between counting and linking, and whether the slab can run dry).
- **Second tier** — `DemotionQueue`, `DemotionDrainer`, `EntryList`, `L2Stripe`, `CacheEngine` (the engine as a value),
  `L2Recency` and `EngineL2` (what L2 still holds, from its history), `EngineCoherence` (one client and the
  drainer: when all copies stay current), `EngineAnswers` (what a get answers and leaves behind in any state),
  `StripeRuns` and `EngineRuns` (runs from an empty engine that end in a wrong answer), `EngineConcurrency` (many
  clients), `EngineSolo` (one of them undisturbed), `EngineObject` (the engine as an object over the objects of
  its tiers).
- **Counters, baseline, measuring** — `CountMinSketch`, `Bits`, `Doorkeeper`, `RecorderHistory`, `LruBaseline`,
  `LruRecency` (with `Recency`, places in a list ordered by recency), `LatencyHistogram`, `TraceLoader`, `TraceLines`.

## Results that differ from what one might expect

- The tag alone does not make the free list safe. A step keeps it in order if and only if it is not a taking swap
  that installs an outdated link (`StepIsExact`), and a run is in order all the way if and only if it contains no
  such swap (`AllocatorSafetyIsExact`). The tag excludes them as long as no taking swap succeeds on a snapshot that
  is 2^32 swaps old (`FreshIsLinked`), hence in every run of at most 2^32 swaps (`ShortRunIsLinked`);
  `WrappedTagCorrupts` is a run of one swap more that ends with a held slot at the head. Publishing swaps need no tag.
- `put` leaves copies of the key in the ring, the batch and L2 alone, and `remove` those in the ring and the batch.
  Unconditional freshness is therefore false, in two senses with two conditions.
  Whether all copies are current: `PutCoherence`, `RemoveCoherence`, `CarefulIsExact` and `TransparencyIsExact` say
  exactly which calls keep it so and which whole runs.
  What a get answers, in every state, coherent or not: it agrees with the backend if and only if the first tier that
  has the key has it current (`GetIsExact`); a client reads the value it just put if and only if the stripe accepted
  it or L2 holds no other (`ReadYourWrite`); a removed key stays gone, whatever the drainer does, if and only if no
  copy of it waits in ring or batch (`RemovedStaysGone`), and what it can come back with is exactly what waits
  (`ComesBack`). `RemovedKeyReturns` and `StaleAnswer` reach both failures from an empty engine, for any hashes.
- The slab suffices for total capacities of 192 and more whose sum with 64 fits in 32 bits and, once keys reach every
  stripe, for no others that construction accepts (`HeadroomIsExact`).
- A key just put can be missing: `ReadAfterPut` says exactly when (no slot, or no window and a lost contest,
  which needs capacity 3).
- A ring accepts items if and only if the request was from 2 to 2^31 (`DemotionQueue.constructor`,
  `AcceptsIsExact`), up to four fifths of its capacity, or a little more from 2^24 on (`ThresholdIsFourFifths`).
  Requests 0 and 1 give capacity 1, whose threshold is 0, and a request above 2^31 wraps to capacity 0; such
  rings drop every push.
- Reading a key again need not answer the same: a get takes the value out of L2 and may fail to put it into L1
  (`GetAgain`).
- The histogram's fall-through value is returned exactly for ranks at or beyond the number of samples, and the sum of
  a bucket's edges leaves 64 bits exactly for samples of 100·2^55 ns and more (`ExactSamples`).

Where code and wording disagree the model follows the code: rejected candidates are dropped, not
queued (README.md:104 of the repository shows them entering the queue); an overflowing Protected entry goes
to the front of Probation (README.md:107 says the tail); the admission test is a strict comparison
(the comment at src/cache_stripe.cpp:293 speaks of a margin of 2); L1 and L2 may hold the same key
(docs/architecture.md:57 says they never do).

## Model

| member | source | states |
|---|---|---|
| `SlabSafety.AllocatorSafety` | src/slab_allocator.cpp:24-65 | for any number of threads and every interleaving of loads, link reads, link writes, swaps (failing spuriously or not) and counter updates whose taking swaps install the link the head has then: the free list is a finite duplicate-free chain, no slot is held twice or both held and free, free and held slots are all slots, and with no thread inside the counter equals the chain length; a matching tag that has not come round shows that the next swap installs the true link, too |
| `SlabProtocol.StepKeepsGood` | src/slab_allocator.cpp:24-65 | every step but a taking swap with an outdated link keeps that invariant, and acts on the free chain as a push, a pop or not at all |
| `SlabSafety.StepIsExact` | src/slab_allocator.cpp:24-65 | from a state in order, a step leads to a state in order if and only if it is not a taking swap whose link differs from the one the head has now |
| `SlabSafety.RunIsExact` | src/slab_allocator.cpp:24-65 | a run is in order after each of its events if and only if each taking swap in it installs the present link |
| `SlabSafety.AllocatorSafetyIsExact` | src/slab_allocator.cpp:8-65 | the same for runs from the constructed state, for any number of slots and threads |
| `SlabSafety.FreshInstalls` | src/slab_allocator.cpp:33-44 | what the tag is for: a taking swap that matches a snapshot less than 2^32 swaps old installs the present link (no ABA) |
| `SlabSafety.FreshIsLinked` | src/slab_allocator.cpp:33-44 | so do all taking swaps of a run in which the tag has not come round |
| `SlabSafety.ShortRunIsLinked` | src/slab_allocator.cpp:24-65 | every interleaving with at most 2^32 successful swaps is of that kind |
| `SlabRuns.SoloAllocate` | src/slab_allocator.cpp:24-46 | load, link read, swap and counter update by one thread without interruption do to the words what one `Allocate` does |
| `SlabRuns.SoloDeallocate` | src/slab_allocator.cpp:48-65 | load, link write, swap and counter update by one thread without interruption do to the words what one `Deallocate` does |
| `SlabSafety.QuiescentCount` | src/slab_allocator.cpp:42-64 | although the count lags the swap, it is exact whenever no thread is inside |
| `SlabRuns.WrappedTagCorrupts` | src/slab_allocator.cpp:33-44 | the bound is sharp: from the initial state a run of 2^32 + 1 swaps reaches a state out of order whose head names a slot another thread holds |
| `SlabProtocol.TakeStep` | src/slab_allocator.cpp:26-45 | a taking swap that installs the present link pops the head of the chain, however old its snapshot is |
| `SlabProtocol.PublishStep` | src/slab_allocator.cpp:52-63 | a successful publishing swap puts exactly the held slot in front of the chain, whatever the age of its snapshot |
| `FreeChain.InitialChain` | src/slab_allocator.cpp:18-21 | the constructor's links chain all slots in index order |
| `FreeChain.PopChain` | src/slab_allocator.cpp:27-44 | following the head's link leaves exactly the rest of the chain, without the popped slot |
| `FreeChain.PushChain` | src/slab_allocator.cpp:52-63 | a slot linked to the old head and made head is the old chain with one more slot |
| `SlabAllocator.SlabAllocator.constructor` | src/slab_allocator.cpp:8-22 | all slots free, in index order, all nodes cleared |
| `SlabAllocator.SlabAllocator.Create` | src/slab_allocator.cpp:15-17 | capacity 0 is refused, nothing else is |
| `SlabAllocator.SlabAllocator.Allocate` | src/slab_allocator.cpp:24-46 | hands out the most recently freed slot, cleared and no longer free, changing no other node; or reports exhaustion and changes nothing; head, tag, links and counter change as in the protocol run alone |
| `SlabAllocator.SlabAllocator.Deallocate` | src/slab_allocator.cpp:48-65 | a slot that is not free becomes the next to be handed out, cleared; no other node changes; head, tag, links and counter change as in the protocol run alone |
| `LruList.PushLinks` | src/lru_list.cpp:11-23 | the pointer writes of `push_front` turn a list reading s into one reading [x] + s in both link directions |
| `LruList.UnlinkLinks` | src/lru_list.cpp:25-42 | the pointer writes of `remove` take exactly the given position out, first, last, middle or only one |
| `LruList.LinkedFrame` | src/lru_list.cpp:11-60 | a list depends on its own nodes only, so lists in the same slab do not disturb one another |
| `LruList.IntrusiveLRU.PushFront` | src/lru_list.cpp:11-23 | prepends to the sequence the list stands for; no payload and no node outside changes |
| `LruList.IntrusiveLRU.Remove` | src/lru_list.cpp:25-42 | removes at any position; no payload and no node outside changes |
| `LruList.IntrusiveLRU.PopBack` | src/lru_list.cpp:44-51 | returns and removes the last node, or reports an empty list |
| `LruList.IntrusiveLRU.MoveToFront` | src/lru_list.cpp:53-60 | moves any position to the front, keeping the order of the rest |
| `CountMinSketch.CellIsTally` | src/count_min_sketch.cpp:22-43 | under any mix of increments, decays and resets whose total stays below 2^32, a cell is exactly the decayed tally of the keys that share it, and at most the total, so it never wraps |
| `CountMinSketch.EstimateBounds` | src/count_min_sketch.cpp:30-43 | an estimate lies between the key's own decayed count and the total, and equals the former if in some row no other incremented key collides |
| `CountMinSketch.DecayHalvesEstimates` | src/count_min_sketch.cpp:30-43 | a decay turns every estimate e into e/2 rounded down and keeps the weak order of keys |
| `CountMinSketch.CountMinSketch.constructor` | src/count_min_sketch.cpp:9-20 | a sketch with all counters zero |
| `CountMinSketch.CountMinSketch.IncrementKey` | src/count_min_sketch.cpp:22-28 | the row loop bumps exactly one 32-bit cell per row, and the total |
| `CountMinSketch.CountMinSketch.EstimateKey` | src/count_min_sketch.cpp:30-37 | the loop computes the minimum over the rows and changes nothing |
| `CountMinSketch.CountMinSketch.DecayAll` | src/count_min_sketch.cpp:39-43 | every cell halved, the total kept |
| `CountMinSketch.CountMinSketch.ResetAll` | src/count_min_sketch.cpp:45-48 | every cell and the total zero |
| `StripePolicy.MakeConfig` | src/cache_stripe.cpp:20-31 | for capacity 3 and more and a probation fraction below 1: main capacity at least 3 and protected capacity at least 1, both within the whole; window capacity is 0 exactly at capacity 3 |
| `StripePolicy.ConfigIsExact` | src/cache_stripe.cpp:20-31 | the window is its fraction of the capacity rounded down, at least 3, unless that leaves Main less than 3 places, when it is a quarter; Probation is its fraction of Main, at least 1; a decay is due after 5 puts per place |
| `StripeTheorems.StripeSafety` | src/cache_stripe.cpp:92-348 | after any run of gets, puts (with or without a free slot) and removes: segment bounds, unique keys, size within capacity, inserts equal residents plus evictions plus rejections plus removals, and the rejection for want of a victim never happens |
| `StripeTheorems.VictimExists` | src/cache_stripe.cpp:286-291 | Probation is never empty while Main is full, so this branch is dead |
| `StripeTheorems.OneAdmission` | src/cache_stripe.cpp:245-251 | the overflow loop terminates after exactly one admission |
| `StripeTheorems.GetKeepsInv` | src/cache_stripe.cpp:93-119 | a get returns the stored value, loses and changes no entry, and a miss changes only the miss counter |
| `StripeTheorems.PutHitKeepsInv` | src/cache_stripe.cpp:191-205 | a put of a resident key replaces its value and nothing else |
| `StripeTheorems.PutMissKeepsInv` | src/cache_stripe.cpp:207-331 | a put of a new key adds it and loses one entry exactly when the stripe was full; Protected is untouched; what is demoted was resident |
| `StripeTheorems.PutNoSlotKeepsInv` | src/cache_stripe.cpp:207-210 | without a free slot only the sketch and its decay counter change |
| `StripeTheorems.RemoveKeepsInv` | src/cache_stripe.cpp:222-241 | a remove takes out exactly the key's entry, and reports whether there was one |
| `StripeTheorems.TryAdmitEffect` | src/cache_stripe.cpp:272-331 | an admission keeps all entries but the one loser, which is the candidate or the last probation entry |
| `StripeTheorems.DemotedResident` | src/cache_stripe.cpp:309-371 | only a resident entry is ever demoted, with the value it had |
| `StripeTheorems.ScanResistance` | src/cache_stripe.cpp:95-99 | a scan of any length (puts of new keys, get misses) leaves Protected as it was, order, keys and values; get misses alone leave everything but the miss counter |
| `StripeTheorems.ProtectedStillHits` | src/cache_stripe.cpp:207-331 | after any such scan each protected key still hits with its value |
| `StripeTheorems.ReadAfterPut` | src/cache_stripe.cpp:186-251 | a key just put is found with its value, unless it was refused: no slot, or no window, a full main and an estimate not above the last probation entry's; then it is absent |
| `StripeTheorems.LookupMeans` | src/cache_stripe.cpp:95-119 | with unique keys, lookup is membership of the entry |
| `StripeHistory.SketchIsHistory` | src/cache_stripe.cpp:92-385 | over any run of stripe operations the sketch has counted exactly the puts and the hits, in order, with one halving after every `decayInterval`-th put and nowhere else |
| `StripeHistory.StripeEstimates` | src/cache_stripe.cpp:295-296 | so a stripe's estimate of a key lies between the decayed number of its puts and hits and the total, and equals the former if the key is alone in its cell in some row |
| `StripeHistory.DecayIsExact` | src/cache_stripe.cpp:379-385 | a put halves every estimate, its own key counted first, if and only if it is a `decayInterval`-th put; otherwise it halves none |
| `StripeReference.ReferenceIsDeterministic` | src/cache_stripe.cpp:92-348 | the reference, in which a hit renews a resident's time, promotion into a full Protected sends its oldest resident back to Probation, the window's oldest is the candidate and Probation's oldest the defender, leaves no choice of reply or next state |
| `StripeRefinement.StepMatches` | src/cache_stripe.cpp:92-348 | each get, put and remove on the lists is the reference's step, with the same answer, the same demoted item and the same five counters |
| `StripeRefinement.ListsRefineReference` | src/cache_stripe.cpp:92-348 | so any run from an empty stripe, reply by reply, is a run of the reference, and ends with the lists in the order of its times and the sketch holding its history |
| `StripeMap.ServesAsMap` | src/cache_stripe.cpp:92-331 | with a slot for every put and no more distinct keys than the capacity, a stripe holds exactly the last value put of each key not removed since, and loses nothing |
| `StripeMap.NothingLostIsExact` | src/cache_stripe.cpp:207-331 | without removes, every key put is found with its last value if and only if there are no more distinct keys than the capacity |
| `StripeMap.CacheServesAsMap` | src/striped_cache.cpp:8-32 | a cache constructed with a total of 192 or more answers a get with the last value put and not removed, as long as at most total / 64 distinct keys have been put in the key's stripe |
| `StripeLayout.IndexFinds` | src/cache_stripe.cpp:191-194 | the node the key index names is at the place where a search of its list would find the key |
| `StripeLayout.TagNamesList` | src/cache_stripe.cpp:106-115 | the segment tag of an indexed node names the list it is on |
| `StripeLayout.IndexedMove` | src/cache_stripe.cpp:333-348 | moving a node between lists and retagging it keeps index, tags and lists in agreement |
| `StripeLayout.IndexedDrop` | src/cache_stripe.cpp:326-329 | forgetting a node keeps index, tags and lists in agreement |
| `StripeLayout.PromoteFullLayout` | src/cache_stripe.cpp:333-348 | promotion into a full Protected list keeps the agreement, with the displaced node at the front of Probation |
| `StripeLayout.LayoutElsewhere` | src/cache_stripe.cpp:92-348 | index, tags and entries of a stripe do not depend on slots outside its lists |
| `CacheStripe.CacheStripe.constructor` | src/cache_stripe.cpp:9-31 | an empty stripe with the computed capacities |
| `CacheStripe.CacheStripe.Get` | src/cache_stripe.cpp:93-119 | refines the policy's get; the index stays a bijection onto the nodes of three disjoint, correctly linked and tagged lists, none of them free; no slot outside the stripe's and the free ones changes |
| `CacheStripe.CacheStripe.Put` | src/cache_stripe.cpp:186-220 | the same for put, with the demoted entry offered to the ring in order, free slots plus residents conserved, and the result telling whether an entry was inserted |
| `CacheStripe.CacheStripe.RemoveKey` | src/cache_stripe.cpp:222-241 | the same for remove; a slot comes back exactly if the key was resident |
| `CacheStripe.CacheStripe.RecordHit` | src/cache_stripe.cpp:106-115 | the switch on the segment tag performs the policy's reordering |
| `CacheStripe.CacheStripe.InsertEntry` | src/cache_stripe.cpp:207-217 | takes one slot and puts the entry at the window's front, or fails and changes nothing |
| `CacheStripe.CacheStripe.AdmitOverflow` | src/cache_stripe.cpp:245-251 | the overflow loop refines the policy's, with everything demoted pushed in order |
| `CacheStripe.CacheStripe.TryAdmitFromWindow` | src/cache_stripe.cpp:272-331 | refines one admission in all its branches, the empty window included; gives back exactly the slot that was lost |
| `CacheStripe.CacheStripe.Duel` | src/cache_stripe.cpp:297-309 | the candidate wins exactly if its estimate is strictly greater than the last probation entry's |
| `CacheStripe.CacheStripe.PromoteToProtected` | src/cache_stripe.cpp:333-348 | refines the policy's promotion |
| `CacheStripe.CacheStripe.DemoteVictim` | src/cache_stripe.cpp:357-377 | clears slot and index entry, and offers key, value and estimate to the ring if there is one |
| `CacheStripe.CacheStripe.MaybeDecayCms` | src/cache_stripe.cpp:379-385 | refines the policy's decay, which `StripeHistory.DecayIsExact` pins down |
| `CacheStripe.CacheStripe.Undisturbed` | src/striped_cache.cpp:14-17 | while another stripe changes slots that this one does not have, this one stays valid and stands for the same value |
| `StripedCache.PerStripe` | src/striped_cache.cpp:11-12 | from 192 on, 64 times a stripe's capacity is at most the total and less than 64 below it; below 192 each stripe has 3 |
| `StripedCache.GetKeyHolds` | src/striped_cache.cpp:20-23 | a get answers exactly what is held under the key and changes nothing that is held |
| `StripedCache.PutKeyHolds` | src/striped_cache.cpp:25-28 | after a put no other value of the key is held, nothing new but the entry appears, and what is demoted was held under another key |
| `StripedCache.PutSlotHolds` | src/striped_cache.cpp:25-28 | the same whether or not the slab has a slot left for the put |
| `StripedCache.RemoveKeyHolds` | src/striped_cache.cpp:30-32 | a remove takes out all of the key and nothing else |
| `StripedCache.GetAllByStripe` | src/striped_cache.cpp:34-53 | gets on different stripes commute: the run in the given order can be read off stripe by stripe |
| `StripedObject.StripedCache.constructor` | src/striped_cache.cpp:8-18 | sixty-four empty stripe objects, pairwise separate, over one slab whose free slots number total plus 64, modulo 2^32 |
| `StripedObject.StripedCache.Create` | src/striped_cache.cpp:8-18 | construction is refused exactly when the slab size wraps around to zero |
| `StripedObject.StripedCache.OthersStay` | src/striped_cache.cpp:20-32 | when one stripe has worked in the shared slab, all sixty-four are still valid and separate, and only that one has changed |
| `StripedObject.StripedCache.Get` | src/striped_cache.cpp:20-23 | the stripe objects together refine the striped get |
| `StripedObject.StripedCache.Put` | src/striped_cache.cpp:25-28 | the stripe objects together refine the striped put, with the slab's free count and the ring's contents |
| `StripedObject.StripedCache.Remove` | src/striped_cache.cpp:30-32 | the stripe objects together refine the striped remove |
| `StripedObject.StripedCache.BatchGet` | src/striped_cache.cpp:34-53 | for any keys, duplicates included: the results and the final state are those of single gets in the given order |
| `StripedObject.StripedCache.GroupKeys` | src/striped_cache.cpp:39-42 | each group lists exactly the positions of its stripe, ascending |
| `SlabHeadroom.HeadroomSuffices` | src/striped_cache.cpp:8-18 | with total capacity 192 or more and no wrap-around of the slab size, in no reachable state of 64 stripes with at most one put in flight on each does a put find the slab empty |
| `SlabHeadroom.HeadroomIsNeeded` | src/striped_cache.cpp:8-12 | for every other 32-bit total that construction accepts, and any routing that gives each stripe four keys, there is a run after which a put finds the slab empty |
| `SlabHeadroom.HeadroomIsExact` | src/striped_cache.cpp:8-18 | for every total that construction accepts, some run starves a put if and only if the total is below 192 or its sum with 64 leaves 32 bits |
| `SlabHeadroom.NeverStarved` | src/cache_stripe.cpp:207-251 | in any coherent state with such a total, whatever the next event, no put finds the slab empty |
| `SlabHeadroom.HalvesMakeAPut` | src/cache_stripe.cpp:188-219 | a put that is interrupted between taking its slot and linking it is, uninterrupted, the policy's put: same stripe, same demoted items |
| `DemotionQueue.Smear` | src/demotion_queue.cpp:62-66 | the five shift-or steps fill every bit below the highest one |
| `DemotionQueue.NextPowerOf2` | src/demotion_queue.cpp:59-69 | for requests 1 to 2^31 the least power of two at or above; 1 for 0; 0 beyond (wrap-around) |
| `Bits.SmearStep` | src/demotion_queue.cpp:62-66 | one shift-or doubles the run of ones below the highest bit |
| `Bits.AndMask` | src/demotion_queue.cpp:22 | masking with 2^k - 1 is the remainder by 2^k |
| `DemotionQueue.BatchIsRepeatedPop` | src/demotion_queue.cpp:27-47 | a batch is what repeated single pops return |
| `DemotionQueue.QueueConserves` | src/demotion_queue.cpp:12-47 | over any history: popped then queued items are the accepted ones in order, pushes attempted equal accepted plus dropped, occupancy never passes the threshold |
| `DemotionQueue.PushAllMeans` | src/demotion_queue.cpp:12-25 | pushing several items appends some of them in order, counts the others as drops and removes nothing |
| `DemotionQueue.DemotionQueue.constructor` | src/demotion_queue.cpp:6-10 | an empty ring of the rounded capacity; it has room for an item if and only if the request is from 2 to 2^31 |
| `DemotionQueue.AcceptsIsExact` | src/demotion_queue.cpp:12-25 | some history of pushes and pops has an item accepted if and only if the capacity is 2 or more |
| `DemotionQueue.ThresholdIsFourFifths` | src/demotion_queue.cpp:14 | the threshold is four fifths of the capacity rounded down below 2^24, and exceeds four fifths by at most capacity / 2^24 fifths beyond |
| `DemotionQueue.DemotionQueue.MaskIsModulo` | src/demotion_queue.cpp:22-31 | masking a position is the remainder by the capacity |
| `DemotionQueue.DemotionQueue.TryPushItem` | src/demotion_queue.cpp:12-25 | appends below the threshold, otherwise counts a drop; the later capacity test never decides |
| `DemotionQueue.DemotionQueue.TryPop` | src/demotion_queue.cpp:27-35 | takes the oldest item, or reports an empty ring |
| `DemotionQueue.DemotionQueue.TryPopMany` | src/demotion_queue.cpp:37-47 | appends the oldest items, at most the limit, in order, and removes them |
| `DemotionDrainer.DemotionDrainer.Run` | src/demotion_drainer.cpp:29-54 | whatever producers offer between rounds: after the stop the ring is empty, the callback has received what was queued and accepted, once and in order, the rest was counted as drops |
| `DemotionDrainer.DemotionDrainer.DrainAll` | src/demotion_drainer.cpp:47-53 | the final drain empties the ring into the callback, in order, dropping nothing |
| `DemotionDrainer.DemotionDrainer.Round` | src/demotion_drainer.cpp:34-38 | one batch of at most 64, delivered and counted |
| `DemotionDrainer.RoundBooks` | src/demotion_drainer.cpp:33-45 | delivered, queued and still-to-be-accepted items keep their joint sequence through a round |
| `EntryList.EntryList.Hit` | benchmarks/lru_cache.h:42-51 | through the iterator map: the value a search would find, and its node moved to the front |
| `EntryList.EntryList.Refresh` | src/cache_engine.cpp:167-172 | new value, node moved to the front, map still right |
| `EntryList.EntryList.TakeOut` | src/cache_engine.cpp:145-148 | takes the key's node out wherever it is; list and map still agree |
| `EntryList.EntryList.DropLast` | src/cache_engine.cpp:174-178 | takes the last node and its key out of list and map |
| `EntryList.EntryList.PushNew` | src/cache_engine.cpp:180-181 | a new node in front, indexed |
| `L2Stripe.L2Stripe.Take` | src/cache_engine.cpp:126-156 | exclusive on a hit: the value moves out of list and map; hits and misses counted |
| `L2Stripe.L2Stripe.Store` | src/cache_engine.cpp:167-181 | refresh in place, or evict the last entry of a full stripe and insert in front |
| `L2Stripe.L2Stripe.Drop` | src/cache_engine.cpp:103-112 | erases the key, counting neither a hit nor a miss |
| `L2Stripe.L2Tier.Store` | src/cache_engine.cpp:161-182 | works on the one stripe of the key and leaves the other fifteen alone |
| `CacheEngine.StoreKeepsUnique` | src/cache_engine.cpp:167-181 | an L2 stripe keeps unique keys and stays within its capacity |
| `CacheEngine.TakeMembers` | src/cache_engine.cpp:135-148 | a hit removes all of the key and returns a value that was held |
| `L2Recency.RemembersByRecency` | src/cache_engine.cpp:126-181 | after any history of stores and takes a stripe answers the last value stored under the key, until it is taken or as many other keys as the stripe has places stand stored since |
| `L2Recency.StillFound` | src/cache_engine.cpp:167-181 | so an entry with fewer other keys stored after it than the stripe has places is still found, whatever else is taken |
| `EngineL2.L2FollowsTraffic` | src/cache_engine.cpp:46-183 | along any engine run each L2 stripe has performed exactly the takes of gets that missed L1, the takes of removes and the deliveries of its keys, in order |
| `EngineL2.L2AnswersByHistory` | src/cache_engine.cpp:126-183 | so after any engine run `l2_get` answers what that history says was kept |
| `EngineL2.StartSizes` | src/cache_engine.cpp:10-31 | a new engine's L2 stripes have a sixteenth of the L2 total rounded down, at least 1, its L1 stripes a sixty-fourth of the L1 total, at least 3, and everything is empty |
| `CacheEngine.PutL1Effect` | src/cache_engine.cpp:94-98 | `l1_.put` adds no copy but the new one, and moves nothing out of the lower tiers |
| `EngineCoherence.GetIsTransparent` | src/cache_engine.cpp:46-92 | if all copies are current, get returns exactly what the backend holds and all copies stay current |
| `EngineCoherence.PutCoherence` | src/cache_engine.cpp:94-98 | a put keeps all copies current if and only if it changes nothing or no copy of the key is in ring, batch or L2 |
| `EngineCoherence.RemoveCoherence` | src/cache_engine.cpp:100-116 | a remove keeps all copies current if and only if no copy of the key is in ring or batch |
| `EngineCoherence.CarefulIsExact` | src/cache_engine.cpp:46-183 | for every act, drainer steps included, the stated condition is necessary and sufficient |
| `EngineCoherence.Transparency` | src/cache_engine.cpp:46-183 | along any run that meets the condition, with drainer steps anywhere, every copy is current and every get answers as the backend would |
| `EngineCoherence.TransparencyIsExact` | src/cache_engine.cpp:46-183 | a run is coherent after each of its acts if and only if each act in it meets the condition |
| `EngineAnswers.GetAnswers` | src/cache_engine.cpp:46-92 | in any state, a get answers exactly what the first of L1, L2 and the backend that has the key has for it |
| `EngineAnswers.GetIsExact` | src/cache_engine.cpp:46-92 | in any state, coherent or not, a get answers as the backend would if and only if every value L1 holds for the key is current and, when L1 holds none, every value L2 holds is |
| `EngineAnswers.GetMissLeaves` | src/cache_engine.cpp:56-91 | a get that misses L1 leaves exactly the value found below under the key in L1, unless the stripe refuses it, and takes the key, and no other, out of L2 |
| `EngineAnswers.GetAgain` | src/cache_engine.cpp:46-92 | in any state: the same get again answers the same, unless the value came from L2 and L1 refused it; then it answers what the backend holds |
| `EngineAnswers.ReadYourWrite` | src/cache_engine.cpp:94-98 | in any state, a get after a put of the key answers the value put if and only if the stripe does not refuse the put or L2 holds no other value of the key |
| `EngineAnswers.ComesBack` | src/cache_engine.cpp:100-116 | in any state: the values with which the drainer can make a removed key answer are exactly those that waited for it in the ring and in the batch |
| `EngineAnswers.RemovedStaysGone` | src/cache_engine.cpp:100-116 | in any state: a removed key is answered with nothing after every sequence of drainer steps if and only if no copy of it waited in the ring or in the batch |
| `EngineAnswers.Arrives` | src/demotion_drainer.cpp:29-54 | draining and delivering brings any waiting copy, however deep in ring and batch, to L2, where a get finds it |
| `EngineAnswers.RemovedKeyComesBack` | src/cache_engine.cpp:100-116 | the shortest case: a copy at the head of the batch is answered after the remove and one delivery, although the backend has none |
| `EngineAnswers.StalePutAnswers` | src/cache_engine.cpp:94-98 | the failing case of a put: refused by the stripe while L2 holds an older value, it is followed by a get that answers the older value |
| `EngineRuns.RemovedKeyReturns` | src/cache_engine.cpp:46-183 | such a run from an empty engine: for any routing, sketch hash and L2 hash, any L1 total below 192, any ring of capacity 2 or more, and any four distinct keys of one stripe each of which is alone among the four in its cell in some row of the sketch: five puts evict the first key, its copy is popped, the key is removed, the copy is delivered, and a get answers it |
| `EngineRuns.StaleAnswer` | src/cache_engine.cpp:46-183 | likewise, for any hashes and four such keys: the first key's copy is delivered to L2, two other keys are read, the first key is put with a new value, and a get answers the old one |
| `StripeRuns.PutShows` | src/cache_stripe.cpp:186-331 | how a stripe of capacity 3 changes under a put, for any sketch hash and keys that are each alone in their cell in some row: it takes, refuses or evicts by the number of times the two keys were counted |
| `StripeRuns.EstimateIs` | src/count_min_sketch.cpp:22-37 | for any hash, a key that shares no cell with another counted key in some row is estimated at exactly how often it was counted |
| `EngineConcurrency.EveryRun` | src/cache_engine.cpp:46-183 | for any number of clients interleaved with the drainer at every lock boundary, the ring's own lock inside a stripe's and puts that find no slot because others hold one included: every copy, every victim on its way to the ring and every answer was put under its key earlier; evictions are still to be pushed, drops, queued, in flight or delivered; deliveries are the accepted items, in order, once |
| `EngineConcurrency.StepKeepsKnown` | src/cache_engine.cpp:46-116 | provenance is kept by every step of every client and of the drainer |
| `EngineConcurrency.StepConserves` | src/demotion_drainer.cpp:29-54 | conservation of evicted items is kept by every step |
| `EngineConcurrency.SoloPut` | src/cache_stripe.cpp:298-371 | a put evicts at most one entry, and its two steps, stripe and push, do together what one uninterrupted `l1_.put` does |
| `EngineSolo.SoloGet` | src/cache_engine.cpp:46-92 | a client whose get nobody interrupts, in any state of the others, answers and leaves the engine as the sequential get does |
| `EngineSolo.SoloWrite` | src/cache_engine.cpp:94-98 | the same for put |
| `EngineSolo.SoloRemove` | src/cache_engine.cpp:100-116 | the same for remove |
| `EngineConcurrency.StoredByPuts` | src/cache_engine.cpp:96 | the backend's history is exactly what the events put |
| `EngineObject.CacheEngine.constructor` | src/cache_engine.cpp:10-31 | an empty coherent engine over real tiers that share nothing but the ring |
| `EngineObject.CacheEngine.Get` | src/cache_engine.cpp:46-92 | the objects refine the engine's get; on a coherent engine it answers as the backend would and stays coherent |
| `EngineObject.CacheEngine.Put` | src/cache_engine.cpp:94-98 | the objects refine the engine's put, with the exact coherence condition and the result of `l1_.put` |
| `EngineObject.CacheEngine.Remove` | src/cache_engine.cpp:100-116 | the objects refine the engine's remove; the result is whether L1 or the backend had the key, not L2 |
| `EngineObject.CacheEngine.DrainOnce` | src/demotion_drainer.cpp:34-38 | one batch of at most 64 moves from the ring into L2, item by item, in order |
| `EngineObject.CacheEngine.L2PutBatch` | src/cache_engine.cpp:158-183 | the loop stores the whole batch as single stores in order would |
| `LruBaseline.Inclusion` | benchmarks/lru_cache.h:39-77 | for capacities 1 <= c <= d and the same operations, the smaller contents are always an order-preserving subsequence of the larger, with the same values |
| `LruBaseline.HitsInclude` | benchmarks/lru_cache.h:39-52 | every hit in the smaller cache is a hit in the larger with the same value |
| `LruBaseline.PutKeepsIncluded` | benchmarks/lru_cache.h:54-77 | a put keeps the inclusion, whichever of the two evicts |
| `LruRecency.AnswersByHistory` | benchmarks/lru_cache.h:39-77 | after any history the cache answers a key's last put value if and only if fewer than `capacity` other keys have been used since the key was, a use being a put or a get of a key remembered at that time |
| `LruRecency.AnswersLastPut` | benchmarks/lru_cache.h:39-77 | so whatever it answers is the value of the last put of that key |
| `LruBaseline.LRUCache.Get` | benchmarks/lru_cache.h:39-52 | list and map refine the sequence: a hit moves to the front and returns the value, a miss changes only its counter |
| `LruBaseline.LRUCache.Put` | benchmarks/lru_cache.h:54-77 | list and map refine the sequence: update in front, or evict until there is room and insert in front |
| `Doorkeeper.SetBitTests` | benchmarks/wtinylfu_cache.h:101-107 | setting a bit in the packed 64-bit words sets that position and no other |
| `Doorkeeper.MarkedSpots` | benchmarks/wtinylfu_cache.h:61-107 | after a reset a position is set exactly if a recorded key hashes to it |
| `Doorkeeper.ContainsMeans` | benchmarks/wtinylfu_cache.h:73-75 | no false negatives; and a positive means both positions were marked by recorded keys |
| `Doorkeeper.IntervalCounts` | benchmarks/wtinylfu_cache.h:312-330 | every access of a key but the first since the last reset raises its estimate, while cells do not wrap |
| `Doorkeeper.RecordedSinceReset` | benchmarks/wtinylfu_cache.h:312-330 | a key accessed n times since the last decay-and-reset is reported present and has estimate at least n - 1 |
| `RecorderHistory.RecordsItsHistory` | benchmarks/wtinylfu_cache.h:312-330 | over any accesses, resets included: the sketch has counted exactly the accesses whose two positions had been hashed to since the last reset, with a halving at each interval |
| `RecorderHistory.FirstAccessIsFree` | benchmarks/wtinylfu_cache.h:312-330 | within an interval a key accessed n times is counted n - 1 times, and once more exactly if other keys had marked both its positions before its first access |
| `Doorkeeper.BloomDoorkeeper.ContainsAndAdd` | benchmarks/wtinylfu_cache.h:61-71 | answers from before, then marks both positions |
| `Doorkeeper.BloomDoorkeeper.Reset` | benchmarks/wtinylfu_cache.h:77-79 | clears every word |
| `Doorkeeper.AccessRecorder.RecordAccess` | benchmarks/wtinylfu_cache.h:312-330 | counts only keys seen before; decays and resets exactly at the interval |
| `LatencyHistogram.FindBucket` | include/latency_instrumentation.h:57-65 | for every sample below 100·2^56 the loop finds its bucket without a threshold leaving 64 bits |
| `LatencyHistogram.RankInBucket` | include/latency_instrumentation.h:76-78 | the bucket whose cumulative count first exceeds t holds the sample of 0-based rank t in sorted order |
| `LatencyHistogram.RepresentativeError` | include/latency_instrumentation.h:79-82 | the representative is within half of the sample it stands for |
| `LatencyHistogram.RepresentativeIsMiddle` | include/latency_instrumentation.h:79-82 | the representative is as far from the lower end of its bucket as from the upper |
| `LatencyHistogram.CountsAdd` | include/latency_instrumentation.h:94-99 | counting a concatenation is adding the counts |
| `LatencyHistogram.LatencyHistogram.Record` | include/latency_instrumentation.h:56-69 | the histogram now stands for one more sample |
| `LatencyHistogram.LatencyHistogram.PercentileBucket` | include/latency_instrumentation.h:73-85 | for any target rank: stops at the bucket of the sample of that rank in sorted order, and falls through exactly if there is no such sample |
| `LatencyHistogram.LatencyHistogram.PercentileUs` | include/latency_instrumentation.h:71-86 | returns the middle of the bucket of the sample of rank floor(p·n), computed in 64 bits; 0 without samples; the fall-through value exactly for p of 1 or more |
| `LatencyHistogram.ReportedIsExact` | include/latency_instrumentation.h:79-82 | the 64-bit sum of a bucket's edges is the true sum for buckets up to 55 and for no later bucket a sample can reach |
| `LatencyHistogram.ExactSamples` | include/latency_instrumentation.h:71-86 | so the value reported for a sample is the true middle of its bucket if and only if the sample is below 100·2^55, which exceeds 2^61 |
| `LatencyHistogram.LatencyHistogram.Merge` | include/latency_instrumentation.h:94-99 | merging is recording the other's samples after one's own, also into itself |
| `TraceLoader.SimpleRoundTrip` | src/trace_loader.cpp:122-163 | operations printed as "GET k" and "PUT k" lines load back unchanged |
| `TraceLoader.CsvRoundTrip` | src/trace_loader.cpp:76-192 | operations printed as rows under the header load back unchanged |
| `TraceLoader.FeedCounts` | src/trace_loader.cpp:20-66 | on any line, lines read stay equal to operations parsed plus lines skipped |
| `TraceLoader.TraceReader.Next` | src/trace_loader.cpp:20-66 | returns the next operation of what the lines hold, nothing only at their end; the counts balance after each call |
| `TraceLoader.LoadTrace` | src/trace_loader.cpp:217-229 | a load with a limit is the prefix of that length of the full load; no limit gives all |
| `TraceLoader.StreamTrace` | src/trace_loader.cpp:231-245 | the callback receives the same prefix, and the result counts its calls |
| `TraceLines.TrimCuts` | src/trace_loader.cpp:208-213 | trimming takes blanks, tabs, carriage returns and newlines off both ends and nothing else |
| `TraceLines.BareKey` | src/trace_loader.cpp:126-132 | a line of one token is a read of that key |
| `TraceLines.FirstToken` | src/trace_loader.cpp:134-162 | with two tokens or more, GET and READ in any case make the second token the key of a read, PUT, WRITE, SET, UPDATE and INSERT that of a write, and any other first token is itself the key of a read |
| `TraceLines.Row` | src/trace_loader.cpp:170-206 | a row is a write exactly if its second field is one of the five write verbs in any case; its key is the trimmed third field, and a blank one is an error |
| `TraceLines.Detects` | src/trace_loader.cpp:76-110 | a first line of three fields selects rows exactly if the second is a column title, then a header, or one of four verbs, then data |
| `TraceLines.HeaderlessRoundTrip` | src/trace_loader.cpp:76-192 | rows without a header load back unchanged, too |
| `TraceLines.SkippedLine` | src/trace_loader.cpp:20-66 | blank lines and comments are skipped and leave the format undecided |

## Left out

- Timers, `LatencyBreakdown` and the instrumented twins of `get` and `put`: clock reads are erased and one path is modelled.
- Memory orderings, data races on the link array, condition-variable waits and mutex scheduling: steps are sequentially consistent and mutex-guarded methods are atomic.
- SlabAllocator.SlabAllocator.Allocate and SlabAllocator.SlabAllocator.Deallocate: one uninterrupted call each; retries and interleavings are in `SlabProtocol`.
- StripedObject.StripedCache.Put: one call at a time; two stripes working at once meet only in the slab, whose interleavings are in `SlabProtocol` and, at the grain of half a put, in `SlabHeadroom`.
- Hash functions: arbitrary functions into their ranges (XXHash, FNV and djb2 internals are not part of this model).
- StripePolicy.MakeConfig and StripePolicy.ConfigIsExact: the two fractions are exact reals; the rounding of `float` products is not modelled.
- LatencyHistogram.LatencyHistogram.PercentileUs: `p` is an exact real; the rounding of the `double` product that gives the rank is not modelled (`PercentileBucket` holds for any rank).
- LatencyHistogram.LatencyHistogram.Record: samples are below 100·2^56 ns, beyond which the source's own threshold overflows its signed word; `total_sum_` is unbounded here.
- The ring's 0.8f is the exact fraction that the float constant denotes.
- Counters the source keeps in 64 bits (`total_increments_`, ring positions, statistics) are unbounded; the sketch's 32-bit cells do wrap in the model.
- EntryList.EntryList.Splice: a list iterator is a node number that is looked up in the list; pointer surgery inside `std::list` is not modelled.
- DemotionDrainer.DemotionDrainer.Run: what producers offer between two rounds is a parameter, and the run is any finite number of rounds before `stop`.
- EngineObject.CacheEngine.DrainOnce: one round of the drainer as a call of its own; the thread's loop and its stop are `DemotionDrainer.DemotionDrainer.Run`.
- The engine's destructor, which detaches the ring and stops the drainer.
- The sums over stripes in `total_hits` and its siblings, `StripedLRUCache`, `PathLatencyTracker`, `mean_us`: they would only add easy members.
- The three segments of `WTinyLFUCache`: the same policy as a stripe's, on another container; of that class only doorkeeper, sketch and decay are modelled, and nothing is said of the value its `get` returns after a promotion.
- Workload generators, benchmark runners, file opening and printing: a trace is a sequence of lines.
