# unordered_dense in Dafny

A model of the hash table of `include/ankerl/unordered_dense.h` and proofs about it. The table keeps its values in a
dense vector and finds them through an index: 2^k groups of sixteen one-byte fingerprints, sixteen value indices and
eight saturating overflow counters. An insert that passes a full group counts itself there; an erase takes the counts
back; a lookup stops at the first group whose counter for its class is zero. So whether a key that is present is found
depends on no counter ever being too low, under placing, freeing, moving home, re-keying, growth and rebuilding.

## How the model is laid out

* `Probing`, `Bits`, `Sizing`: the probe sequence, bitwise arithmetic on words, shifts, capacities.
* `Faults`: what can throw or fail in an insert, a walk or a fill.
* `Groups`, `Counters`, `Bijection`: the index as a sequence of groups, and its two laws. *Exact*: every counter is
  255 or the number of live entries of its class that passed its group. *Bijects*: the full slots are in bijection
  with the values.
* `TableState`, `Building`, `Operations`: the table as a value, and what every operation computes, as a function.
  Two tiers of invariant: *Safe* (shape and bijection, fingerprints and counters arbitrary, counter arithmetic modulo
  256) and *Sound* (exact counters, right fingerprints, distinct keys).
* `Reference`: the container everything is compared with, a vector searched by linear scan, and the map it stands for.
* `Safety`, `Soundness`, `Runs`, `Canonical`, `Rebuilding`, `Inverse`, `Queries`: what every operation keeps in each
  tier, over whole runs; insert-only tables; what rehash and reserve achieve; insert and erase as inverses; equality
  and verify. `Frames` says where entries stand, `Sizes` how large an array each operation asks for and when it fails,
  `LoadFactors` when a table is within its maximum load factor, `Exactness` when every counter is its count; `Crowding`
  reaches the tables where one is not; `Interruptions` says what a hash that throws leaves behind.
* `Swar`, `WideMul`, `HashReads`, `SegmentedVectors`: the leaf arithmetic and the blocked vector.
* `Walks`, `Tables`: the loops and the class with its fields updated in place, every method proved against the
  function that specifies it. Methods ask for the lower tier only.
* `RangeInsert`, `Replacing`, `Merging`, `Bulk`, `Erasures`, `Loading`: the operations over many elements, in their
  pipelined forms, and the load of an index from outside.

The hash is any function from keys to 64-bit numbers; two tables may use different ones. Allocation of the index is a
budget: an operation is given the number of allocations that will succeed and reports how many are left, so every
pattern of failures is covered. The exceptions of the source are results: out of memory, too many elements, key changed,
bad index. What else can go wrong is in `Faults`: the value container cannot append, or a hash or a comparison throws,
of one element of a walk or of one value of a fill.

## Where the text of the source says more than its code does

* The comment at `include/ankerl/unordered_dense.h:2253-2260` says an erase undoes exactly what its insert did to the
  counters. It does if and only if no counter the insert incremented stood at 254: that one goes to 255 and stays.
  `Counters.PlaceThenFreeRestores` and `Inverse.InsertThenErase` are the exact condition; `Crowding.StuckAfter` is a
  table a run from a new one reaches, at which it fails: 270 keys that hash alike, and one more. A counter that stood
  at 255 is restored.
* The comment at 2271-2272 says the counters are exact. A counter other than 255 always is (`Runs.ReachableCounters`).
  From a table without one, a run sticks no counter at 255 if and only if it never has more than 254 entries of one
  class past one group, and then all counters are exact in every state of it (`Exactness.RunCounts`). A table that never
  holds more than 270 values is within that (`Exactness.FewCounted`), and 271 are enough to be past it
  (`Crowding.Fullest`). Operation by operation the limits are those of `Counters.PlaceTrue` and `Counters.FreeTrue`.
  Past them both ways of being off are reached: `Crowding.Overfull` has 256 entries past a counter at 255,
  `Crowding.Stuck` has 254. A counter is below its count exactly where the count is past 255 (`Counters.OffBy`).
* An insert that fails for want of memory or of range, or because the value cannot be appended, leaves the values, and
  the index of a table that has one, as they were. A table that had no index keeps the empty one it was given first if and only if that allocation succeeded and then either the value could
  not be appended, at any load factor, or the next allocation failed while the maximum load factor is below 1/64 and
  the index may have more than 64 slots (`Rebuilding.FirstArrayKept`, with an example of each beside it).
* `doc/usage.md:458` promises that a merge in which a hash or a comparison throws leaves both containers valid, and the
  comment at `include/ankerl/unordered_dense.h:3629-3632` that the source is put back together. The repair hashes the
  elements kept once more. The source is valid if and only if nothing was taken from it or that hash does not throw
  again (`Interruptions.MergeInterrupted`); otherwise elements it kept, and counts, are not found
  (`Interruptions.RepairFails` reaches it with two keys). The destination is valid if and only if the throw was not one
  of a growth that hashes its values anew. One element may be lost, to a failed growth or a failed append, as promised.
  The hash of an element is taken sixteen elements ahead when the index is large, so the walk then ends sixteen
  elements before the one whose hash throws.
* The same holds of every fill. An insert that grows, a rehash and a reserve leave a table if and only if no hash throws
  on the way (`Interruptions.InterruptedGrowth`, `InterruptedRehash`, `InterruptedReserve`): otherwise the values stay
  and only those the fill had come to are found. So the comment at 3135-3140, that taking the value out again makes a
  failed insert have no effect, is about the allocation only; `Interruptions.GrowthFails` is an insert after which not
  even the value that was there before is found.

## Model

| member | source | states |
|---|---|---|
| `Bits.NextIsMaskedSum` | include/ankerl/unordered_dense.h:2290-2293 | For a number of groups that is a power of two, and every step a walk takes, the step that wraps at most once is the bitwise and of the sum with the number of groups less one. |
| `Probing.PathInjective` | include/ankerl/unordered_dense.h:2290-2293 | For 2^k groups, two different depths below 2^k land in two different groups, whatever the home group. |
| `Probing.PathOnto` | include/ankerl/unordered_dense.h:2290-2293 | The first 2^k steps from any home reach every group: a walk bounded by the number of groups misses none. |
| `Probing.PathIs` | include/ankerl/unordered_dense.h:2290-2293 | After d steps a walk has gone d(d + 1)/2 groups from home, round the array. |
| `Probing.DepthOfPath` | include/ankerl/unordered_dense.h:2612-2623 | Depth and Path are inverse: the group an entry was found in is met at one depth only, so an uncount stops where its insert stopped. |
| `Counters.PlaceExact` | include/ankerl/unordered_dense.h:2583-2604 | Placing an entry keeps every counter saturated or equal to the number of live entries of its class whose walk passes its group. |
| `Counters.FreeExact` | include/ankerl/unordered_dense.h:2611-2634 | Freeing an entry keeps the same law for all groups and classes, decrement modulo 256 included. |
| `Counters.NoWrap` | include/ankerl/unordered_dense.h:2612-2623 | Under exact counters no decrement of an uncount meets a zero, so none wraps. |
| `Groups.UnbumpWraps` | include/ankerl/unordered_dense.h:2612-2623 | The decrement of a counter other than 255 is one of a byte, modulo 256. |
| `Counters.MoveHomeExact` | include/ankerl/unordered_dense.h:2658-2677 | Moving an entry to its home group keeps the law, and the entry is then in the home group if that had a free lane, else where it was. |
| `Counters.RepointExact` | include/ankerl/unordered_dense.h:2748-2770 | Turning a slot to another value index touches no counter and no fingerprint. |
| `Counters.EmptyExact` | include/ankerl/unordered_dense.h:3035-3040 | An index of empty slots and zero counters is exact for no entries. |
| `Counters.PlaceThenFree` | include/ankerl/unordered_dense.h:2577-2634 | Placing an entry and freeing it again gives back every fingerprint and every counter, except that a counter that stood at 254 is left at 255. |
| `Counters.PlaceThenFreeRestores` | include/ankerl/unordered_dense.h:2253-2283 | The erase undoes the insert exactly when no counter the insert incremented stood at 254; both directions. |
| `Counters.OffBy` | include/ankerl/unordered_dense.h:2276-2280 | Under the counter law a counter is below its count exactly where the count is past 255, and above it exactly where the counter is at 255 and the count below. |
| `Counters.PlaceTrue` | include/ankerl/unordered_dense.h:2583-2604 | If every counter is its count, at 255 too, a placement keeps that if and only if no count goes past 255. |
| `Counters.FreeTrue` | include/ankerl/unordered_dense.h:2611-2634 | If every counter is its count, freeing an entry keeps that if and only if no counter on its way stands at 255. |
| `Counters.PlaceUnstuck` | include/ankerl/unordered_dense.h:2583-2604 | From an index without a stuck counter a placement sticks none if and only if no group has then been passed by more than 254 entries of a class. |
| `Counters.PassersOfFull` | include/ankerl/unordered_dense.h:2583-2604 | The entries that have passed a full group are at least sixteen fewer than all entries. |
| `Counters.PassedIsFull` | include/ankerl/unordered_dense.h:2583-2604 | A placement passes full groups only. |
| `Counters.PlaceFew` | include/ankerl/unordered_dense.h:2583-2604 | Among at most 270 entries, the one placed last included, no counter gets past 254 by counting: an insert passes full groups only. |
| `Counters.FreeUnstuck` | include/ankerl/unordered_dense.h:2611-2634 | Freeing an entry sticks no counter. |
| `Bijection.Onto` | include/ankerl/unordered_dense.h:1583-1594 | As many full slots as values, each in range and no two alike: every value is pointed at. |
| `Bijection.RoomWhenNotFull` | include/ankerl/unordered_dense.h:2583-2604 | With fewer full slots than slots, every placement walk meets a free lane within the number of groups, so it ends. |
| `Bijection.NoMoreThanSlots` | include/ankerl/unordered_dense.h:2955-2964 | A bijection leaves no more values than slots. |
| `Bijection.MoveHomeInjects` | include/ankerl/unordered_dense.h:2658-2677 | Moving a slot home keeps the bijection, whatever counters and fingerprints hold. |
| `TableState.ProbeReaches` | include/ankerl/unordered_dense.h:2454-2477 | With exact counters no group before the one an entry is in shows a zero counter of its class, so the probe reaches it. |
| `TableState.ProbeStops` | include/ankerl/unordered_dense.h:2454-2477 | Over any counters at all the one slot that answers is found if and only if no counter of the class before its group is zero: a lookup stops at the first group that nothing of the class has passed. |
| `TableState.FindIsScan` | include/ankerl/unordered_dense.h:2545-2573 | In a sound state find returns, for every key, what a linear scan of the values returns: no present key is hidden and no absent key reported. |
| `TableState.ProbeOfKey` | include/ankerl/unordered_dense.h:2454-2477 | The probe for the key of value i stops at the one slot that points at value i. |
| `TableState.SlotOfValueFound` | include/ankerl/unordered_dense.h:2715-2737 | A slot carrying the fingerprint and the value index is found, over any counters, because the walk reaches every group. |
| `Building.BuildBijects` | include/ankerl/unordered_dense.h:3043-3127 | Filling an empty index from at most as many values as slots finds room for each and makes the bijection. |
| `Building.BuildUnstuck` | include/ankerl/unordered_dense.h:3043-3127 | Filling an empty index with at most 270 entries, or with no more than 254 of a class past any group, sticks no counter. |
| `Building.BuildExact` | include/ankerl/unordered_dense.h:3043-3127 | Filling an empty index from the values gives exact counters and the fingerprints of the keys. |
| `Sizing.Home` | include/ankerl/unordered_dense.h:2220-2222 | The group of any 64-bit hash is below 2^(64 - shifts): hash >> shifts needs no mask. |
| `Sizing.HomeIs` | include/ankerl/unordered_dense.h:2220-2222 | The home group is the hash divided by 2^shifts. |
| `Sizing.Fingerprint` | include/ankerl/unordered_dense.h:861-868 | The fingerprint is the low byte of the hash, or 8 where that is 0, which marks an empty lane; its low three bits stay those of the hash. |
| `Sizing.CapacityIs` | include/ankerl/unordered_dense.h:2955-2964 | For any array but the largest the capacity is the most values that are not past the load factor, c * den <= slots * num < (c + 1) * den; of the largest every slot may be used. |
| `Sizing.ShiftsFromIs` | include/ankerl/unordered_dense.h:2796-2811 | The shift computed for a size describes an array the table can have, never runs down to 0, gives a capacity that holds the size, and every array passed over on the way was too small. |
| `Sizing.ShiftsForFits` | include/ankerl/unordered_dense.h:2796-2811 | The array for any size up to the maximum holds that size, is no larger than the index width allows, and every smaller one from four groups up would not hold it. |
| `Sizing.SlotsOf` | include/ankerl/unordered_dense.h:2780-2787 | For a valid shift the saturating group count is 2^(64 - shifts) itself and the slots are at most the maximum. |
| `Sizing.ShiftRightDivides` | include/ankerl/unordered_dense.h:2220-2222 | The shift as modelled is division by 2^n: quotient and remainder. |
| `Operations.RoomToAppend` | include/ankerl/unordered_dense.h:3267-3284 | Below the capacity a placement has a free slot and gives a bijection with one value more. |
| `Operations.CanGrow` | include/ankerl/unordered_dense.h:3129-3152 | Below the largest array there is a next larger one, and it holds one value more than the table has. |
| `Operations.RoomAfterFree` | include/ankerl/unordered_dense.h:4489-4513 | After freeing a slot, a placement from any home group finds room: re-keying a full index ends. |
| `Operations.AppendOver` | include/ankerl/unordered_dense.h:3129-3152 | Past the capacity an insert fails and leaves the table as it was, or rebuilds into the array twice as large from all values, the new one included. |
| `Reference.InsertRefines` | include/ankerl/unordered_dense.h:3657-3728 | The abstract insert keeps keys distinct and adds the entry to the map, or changes nothing when the key is there. |
| `Reference.RemoveAtRefines` | include/ankerl/unordered_dense.h:3158-3171 | Overwriting a position with the last value and dropping the last removes exactly that position's key from the map. |
| `Reference.ReplaceKeyRefines` | include/ankerl/unordered_dense.h:4489-4513 | Re-keying keeps keys distinct and moves one value to the new key, or changes nothing when that key is there. |
| `Reference.SameMapIff` | include/ankerl/unordered_dense.h:5093-5115 | Two vectors of one length stand for one map as soon as one holds all entries of the other; both directions, by counting keys. |
| `Safety.EmplaceSafe` | include/ankerl/unordered_dense.h:3657-3728 | From any bijection, with arbitrary fingerprints and counters, an insert ends in a bijection. |
| `Safety.EraseKeySafe` | include/ankerl/unordered_dense.h:3175-3210 | From any bijection an erase by key ends in a bijection or reports a changed key. |
| `Safety.EraseAtSafe` | include/ankerl/unordered_dense.h:4523-4545 | From any bijection an erase by position ends in a bijection or reports a changed key. |
| `Safety.ReplaceKeySafe` | include/ankerl/unordered_dense.h:4489-4513 | From any bijection a re-keying ends in a bijection or reports a changed key. |
| `Safety.RehashSafe` | include/ankerl/unordered_dense.h:5041-5061 | From any bijection a rehash ends in a bijection. |
| `Safety.ReserveSafe` | include/ankerl/unordered_dense.h:5063-5074 | From any bijection a reserve ends in a bijection. |
| `Safety.SizeFits` | include/ankerl/unordered_dense.h:2955-2964 | A safe table has no more values than slots and no more slots than the index width allows. |
| `Soundness.EmplaceSound` | include/ankerl/unordered_dense.h:3657-3728 | An insert keeps exact counters and distinct keys, does to the values what a linear-scan insert does, reports the key's position, and leaves the table as it was, but for a first empty array, when the index or the value container has no memory or the index is at its largest; then the key was absent. |
| `Frames.HitAtHome` | include/ankerl/unordered_dense.h:2658-2677 | After an insert that finds its key, the slot a probe finds the key in is in the key's home group, unless that has no free lane; no other entry moves. |
| `Frames.MissFrame` | include/ankerl/unordered_dense.h:2583-2604 | An insert of an absent key that does not grow puts the entry in a free slot behind full groups only; no other entry moves. |
| `Soundness.MoveHomeSound` | include/ankerl/unordered_dense.h:2658-2677 | Moving a found entry home keeps the table sound. |
| `Soundness.EraseSlotSound` | include/ankerl/unordered_dense.h:3175-3199 | Erasing the value of a slot never reports a changed key on a sound table and is swap-with-last on the values. |
| `Soundness.EraseKeySound` | include/ankerl/unordered_dense.h:3201-3210 | An erase by key keeps soundness and removes the key if it is there. |
| `Soundness.EraseAtSound` | include/ankerl/unordered_dense.h:4523-4545 | An erase by position keeps soundness and removes that position. |
| `Frames.EraseFrame` | include/ankerl/unordered_dense.h:3158-3199 | An erase vacates the slot of its value and turns the one of the last value to the position that freed; no entry moves, and the counters are exact without the one erased. |
| `Frames.KeyChangedWhen` | include/ankerl/unordered_dense.h:2715-2737 | On any safe table an erase by position reports a changed key if and only if the fingerprint kept for the value, or for the last one, is not that of its key. |
| `Soundness.ReplaceKeySound` | include/ankerl/unordered_dense.h:4489-4513 | A re-keying keeps soundness and is the linear-scan re-keying. |
| `Frames.RekeyFrame` | include/ankerl/unordered_dense.h:4489-4513 | A re-keying moves no entry but its own. |
| `Frames.RekeyChangedWhen` | include/ankerl/unordered_dense.h:4489-4513 | On any safe table a re-keying reports a changed key if and only if its new key is not found and the fingerprint kept for the value is not that of its key. |
| `Frames.NothingToDo` | include/ankerl/unordered_dense.h:3201-3210 | An erase of an absent key, a re-keying to a present one and clearing an empty table change nothing at all. |
| `Soundness.SlotOfValueSound` | include/ankerl/unordered_dense.h:2679-2737 | On a sound table the slot of value i is found under the tag of its key. |
| `Soundness.RehashSound` | include/ankerl/unordered_dense.h:5041-5061 | A rehash keeps soundness and the values, whether or not it finds memory. |
| `Soundness.ReserveSound` | include/ankerl/unordered_dense.h:5063-5074 | A reserve keeps soundness and the values, whether or not it finds memory. |
| `Soundness.SetLoadSound` | include/ankerl/unordered_dense.h:5029-5039 | Changing the maximum load factor keeps soundness and the values. |
| `Soundness.ExtractAllSound` | include/ankerl/unordered_dense.h:4165-4235 | clear and extract leave a sound table. |
| `Runs.RunSafe` | include/ankerl/unordered_dense.h:1583-1594 | Starting from no more than a bijection, any run of operations keeps the bijection to its end or stops by reporting a changed key. |
| `Runs.RunSound` | include/ankerl/unordered_dense.h:2253-2283 | From a sound table any run, replace and being merged into another sound table, to the end or interrupted, included, ends in a sound table with the values the linear-scan container has, never reports a changed key, and at its end find is a linear scan for every key. |
| `Runs.ReachableCounters` | include/ankerl/unordered_dense.h:2253-2283 | In every state reachable from a new table every counter is 255 or the number of live entries of its class whose walk passes its group before the one they are in. |
| `Runs.ReachableSizing` | include/ankerl/unordered_dense.h:2917-2964 | In every state a run reaches from a safe one the groups are 2^(64 - shifts), so any hash >> shifts is in range; values and capacity are at most the slots; below the capacity every placement has a free slot. |
| `Runs.InsertAllIsRun` | include/ankerl/unordered_dense.h:3293-3332 | A range insert is a run of inserts, wherever it is cut short but in the middle of a growth, so all that holds of runs holds of it. |
| `Runs.MergeIsRun` | include/ankerl/unordered_dense.h:3499-3640 | What a merge does to its destination is a run of inserts, wherever it is cut short but in the middle of a growth. |
| `Interruptions.WalkEnds` | include/ankerl/unordered_dense.h:3310-3331 | A walk over another container ends at the last element, where it is interrupted, in the middle of a growth, or at an element that cannot be inserted, the value container failing or the table full with no memory or no larger array; and nowhere else. |
| `Interruptions.LostWhen` | include/ankerl/unordered_dense.h:3605-3614 | A merge loses an element only where one cannot be inserted for one of those reasons. |
| `Runs.RunSnoc` | include/ankerl/unordered_dense.h:3175-3210 | A run and one operation more is that operation in the run's last state. |
| `Exactness.StepUnstuck` | include/ankerl/unordered_dense.h:2276-2280 | Any operation from a sound table without a stuck counter to one with at most 270 values, or where no group was passed by more than 254 entries of a class, sticks no counter: growth, re-keying, moving home, rehash, replace and merge included. |
| `Exactness.RunCounts` | include/ankerl/unordered_dense.h:2271-2280 | From a sound table without a stuck counter, a run sticks none in any of its states if and only if in none of them a group was passed by more than 254 entries of a class; and then every counter is exactly its count in all of them. |
| `Exactness.ReachableTrueCounts` | include/ankerl/unordered_dense.h:2271-2280 | From a new table, while no group is passed by more than 254 entries of a class, every counter is the number of live entries of its class whose walk passes its group. |
| `Exactness.PassersAtMostValues` | include/ankerl/unordered_dense.h:2276-2280 | No more entries can have passed a group than there are values. |
| `Exactness.FewCounted` | include/ankerl/unordered_dense.h:2276-2280 | A run that never holds more than 270 values sticks no counter and has only exact ones, in every state. |
| `Crowding.AlikeBuild` | include/ankerl/unordered_dense.h:2276-2280 | n entries that hash alike, in an index of any size: the first group holds up to sixteen of them, the others have passed it, and its counter is their number cut at 255. |
| `Crowding.CrowdRun` | include/ankerl/unordered_dense.h:2276-2280 | A run from a new table, under a hash that is constant, that ends with the keys 0 to n - 1 for any n up to 300. |
| `Crowding.Fullest` | include/ankerl/unordered_dense.h:2276-2280 | The limit of 270 values is sharp: a run from a new table has its counter at 254 with 270 keys that hash alike and at 255 with 271. |
| `Crowding.Overfull` | include/ankerl/unordered_dense.h:2276-2280 | A reachable, sound table with a counter at 255 that 256 entries have passed. |
| `Crowding.Stuck` | include/ankerl/unordered_dense.h:2276-2280 | A reachable, sound table with a counter at 255 that 254 entries have passed: the last of 271 keys that hash alike was erased. |
| `Crowding.StuckAfter` | include/ankerl/unordered_dense.h:2253-2262 | A reachable, sound table at which an erase does not undo its insert: 270 keys that hash alike, one more inserted and erased, and a counter has gone from 254 to 255 for good. |
| `Canonical.InsertOnlyRun` | include/ankerl/unordered_dense.h:2658-2677 | After any run of inserts, duplicates included, and reserves, any of them failing, the index is the one a rebuild from the values gives. |
| `Canonical.NothingMoves` | include/ankerl/unordered_dense.h:2658-2677 | In such a table move_home never fires: an entry away from home has a full home group. |
| `Canonical.NewTableCanonical` | include/ankerl/unordered_dense.h:3025-3033 | A new table is such a table. |
| `Rebuilding.RehashIsRebuild` | include/ankerl/unordered_dense.h:5041-5061 | After a rehash fingerprints, counters and pointed-at values are those of a fresh array filled from the values, whatever the index held before. |
| `Sizes.RehashSize` | include/ankerl/unordered_dense.h:5041-5061 | The array a rehash leaves holds the values there are and the count asked for, up to the maximum, and every smaller one from four groups up is too small for one of the two. |
| `Sizes.RehashPlaced` | include/ankerl/unordered_dense.h:5041-5061 | A rehash fails if and only if there is no memory and its own array is not that one; it takes one allocation where it is not, and none where it is. |
| `Sizes.ReservePlaced` | include/ankerl/unordered_dense.h:5063-5074 | A reserve fails if and only if there is no memory and no array that holds the values there are and the count asked for; with such an array it changes nothing, and otherwise takes one allocation and leaves the smallest array that does. |
| `Sizes.ReplacePlaced` | include/ankerl/unordered_dense.h:4239-4248 | A replace fails if and only if the container is larger than any table, or there is no memory and no array that holds it; it keeps such an array, and otherwise takes one allocation and leaves the smallest that holds the container. |
| `Sizes.InsertEnds` | include/ankerl/unordered_dense.h:3267-3284 | How an insert ends in every case, with the allocations left and the size of the array: a present key needs nothing; an absent one is inserted below the limit, in an array twice as large past it, or fails for no memory, at the largest array, or where the value cannot be appended. |
| `LoadFactors.WithinIs` | include/ankerl/unordered_dense.h:2955-2964 | Below the largest array the values are within the capacity if and only if size / slots is at most the maximum load factor. |
| `LoadFactors.InsertWithin` | include/ankerl/unordered_dense.h:3129-3152 | After an insert that added a value, below the largest array, the table is within its maximum load factor if and only if twice the slots it had before are enough for one value more: an insert grows once. |
| `LoadFactors.LoadFactorKept` | include/ankerl/unordered_dense.h:2909-2915 | In every state a run reaches from a new table without changing its maximum load factor, at least 1/64, size / slots is at most that, unless the array is the largest. |
| `LoadFactors.PastLoadFactor` | include/ankerl/unordered_dense.h:3129-3152 | At a load factor of a thousandth it is not: one insert into a new table leaves one value in 128 slots. |
| `LoadFactors.StepKeeps` | include/ankerl/unordered_dense.h:2927-2951 | What an operation keeps: hash and index width always, the load factor but where it is set, an array once there is one, its size but in a growth, a rehash, a reserve or a replace, of which only a rehash makes it smaller. |
| `LoadFactors.SetLoadIs` | include/ankerl/unordered_dense.h:5029-5039 | max_load_factor sets the load factor to the smaller of its argument and 1 and the capacity to the most values within it; values and index stay. |
| `Rebuilding.RoomNeedsNoMemory` | include/ankerl/unordered_dense.h:2913-2915 | Below the capacity an insert succeeds without an allocation and without changing the capacity. |
| `Rebuilding.FailedInsert` | include/ankerl/unordered_dense.h:3129-3152 | On any safe table an insert that fails, for want of memory for the index, of range, or because the value could not be appended, adds no value and leaves the state before it, but for the first, empty array it may have been given; too many elements is reported only at the most values an index can tell apart. |
| `Rebuilding.FirstArrayKept` | include/ankerl/unordered_dense.h:3267-3284 | A failed insert changes the table if and only if it had no array, the first allocation succeeded, and either the value could not be appended or no second allocation succeeded where the load factor is below 1/64 on more than 64 possible slots. |
| `Rebuilding.FirstArrayKeptExample` | include/ankerl/unordered_dense.h:3028-3033 | Both happen, in a new table with one allocation and one insert: at any load factor when the append fails, and at 1/100 when it does not. |
| `Rebuilding.ClearedOut` | include/ankerl/unordered_dense.h:4165-4235 | extract leaves an index without a stuck counter in which no key is found; clear leaves one exactly when there were values or the index was empty of counts already. |
| `Inverse.InsertThenErase` | include/ankerl/unordered_dense.h:3175-3210 | Insert and erase of a fresh key without growth give back the values, and every fingerprint and counter exactly when no counter the insert incremented stood at 254. |
| `Inverse.InsertThenEraseIs` | include/ankerl/unordered_dense.h:3175-3210 | The table after the insert and the erase is sound, has the same entries in the same slots, and differs from the table before in its groups only. |
| `Queries.EqualIffSameMap` | include/ankerl/unordered_dense.h:5093-5115 | Two tables compare equal if and only if they stand for the same map, whatever their value order, index layout or hashes. |
| `Queries.VerifyMeans` | include/ankerl/unordered_dense.h:4995-5009 | verify(full), on any safe index, is true if and only if keys are distinct and find is the linear scan for every key. |
| `Queries.LookupSeesZeros` | include/ankerl/unordered_dense.h:4987-4994 | Counters that agree on being zero give the same lookups: verify cannot tell a positive counter that is too low or too high from an exact one. |
| `Queries.AbsentNotFound` | include/ankerl/unordered_dense.h:1583-1594 | On any safe index a key that is not there is not found. |
| `Queries.SoundVerifies` | include/ankerl/unordered_dense.h:4995-5009 | Every sound table passes verify(full). |
| `Queries.SpotIs` | include/ankerl/unordered_dense.h:5010-5017 | The spot check's positions are floor(j n / 16), computed without the product, and in range. |
| `Bits.ClearLowest` | include/ankerl/unordered_dense.h:2979 | n & (n - 1) is 0 exactly for a power of two. |
| `Bits.WithoutLowest` | include/ankerl/unordered_dense.h:2471 | x & (x - 1) has all the bits of x but the lowest. |
| `Swar.WordMarks` | include/ankerl/unordered_dense.h:2310-2314 | The masks leave the high bit of every zero byte and no other bit, over words of any number of bytes, without a carry between bytes. |
| `Swar.Gather` | include/ankerl/unordered_dense.h:2306-2315 | The multiplication gathers eight flags a byte apart into the top byte of the low word: nothing else lands there and nothing carries into it. |
| `Swar.MatchZeroIs` | include/ankerl/unordered_dense.h:2310-2315 | The match of an eight-byte word is the number whose bit i is set exactly when byte i is zero. |
| `Swar.MatchZeroOfWord` | include/ankerl/unordered_dense.h:2310-2315 | The same, bit by bit, of any 64-bit word. |
| `Swar.MatchFingerprintIs` | include/ankerl/unordered_dense.h:2347-2369 | Bit i of the match is set if and only if lane i of the sixteen carries the fingerprint. |
| `Swar.NextLane` | include/ankerl/unordered_dense.h:2463-2472 | The lowest bit of the matching lanes is the lowest matching lane left, and clearing it leaves exactly the later ones. |
| `Swar.EmptyLanes` | include/ankerl/unordered_dense.h:2371-2373 | The lowest empty lane of the match is the lowest free lane of the group; no bit means the group is full. |
| `Swar.FirstMatch` | include/ankerl/unordered_dense.h:2462-2473 | The loop over the matching lanes stops at the first lane, in order, that points at the key, or at none. |
| `Swar.LaneOfKey` | include/ankerl/unordered_dense.h:2462-2473 | Matching a group and looping over the lanes is a scan of its sixteen lanes for the key. |
| `Swar.FirstEmpty` | include/ankerl/unordered_dense.h:2590-2593 | The lane a placement takes in a group, from the word match, is its lowest free lane. |
| `Swar.LaneOfValue` | include/ankerl/unordered_dense.h:2721-2728 | The loop over the matching lanes stops at the first lane, in order, that points at the value, or at none. |
| `WideMul.Mum` | include/ankerl/unordered_dense.h:281-297 | The low and high words computed from four 32-bit products with wrapping sums are the exact 128-bit product. |
| `HashReads.HashBytesReads` | include/ankerl/unordered_dense.h:364-496 | For every length, every read lies inside the key and every byte is read. |
| `HashReads.ShortReads` | include/ankerl/unordered_dense.h:391-437 | The paths up to 16 bytes, both ways of reading 8 to 16, read inside the key and all of it. |
| `HashReads.MediumReads` | include/ankerl/unordered_dense.h:439-466 | First block, last sixteen bytes, then whole blocks while the length says so: inside the key and all of it. |
| `HashReads.LongReads` | include/ankerl/unordered_dense.h:468-495 | Six-lane, three-lane and single-block loops and the tail: inside the key and all of it. |
| `HashReads.FourAndFour` | include/ankerl/unordered_dense.h:396-409 | Two four-byte words, the second shifted up and or-ed in, are the eight-byte word, so both short paths hash alike. |
| `SegmentedVectors.SegmentedVector.Get` | include/ankerl/unordered_dense.h:1384-1390 | Indexing by shift and mask reads the element of that position. |
| `SegmentedVectors.SegmentedVector.Set` | include/ankerl/unordered_dense.h:1388-1390 | Writing through the same address changes that element and no other. |
| `SegmentedVectors.SegmentedVector.EmplaceBack` | include/ankerl/unordered_dense.h:1479-1488 | Appends one element; the blocks there were stay the first of the blocks there are, so no element moves; one block is added exactly when the capacity is used up. |
| `SegmentedVectors.SegmentedVector.IncreaseCapacity` | include/ankerl/unordered_dense.h:1228-1244 | Adds one fresh block at the end and changes no element. |
| `SegmentedVectors.SegmentedVector.PopBack` | include/ankerl/unordered_dense.h:1419-1422 | Drops the last element and keeps every block. |
| `SegmentedVectors.SegmentedVector.Reserve` | include/ankerl/unordered_dense.h:1428-1433 | Reaches the capacity asked for with no more blocks than it needs and moves nothing. |
| `SegmentedVectors.SegmentedVector.Resize` | include/ankerl/unordered_dense.h:1447-1458 | Truncates, or appends copies of the value up to the new size, with no more blocks than it needs; no element moves. |
| `SegmentedVectors.SegmentedVector.Clear` | include/ankerl/unordered_dense.h:1490-1492 | Leaves no element and every block. |
| `SegmentedVectors.SegmentedVector.ShrinkToFit` | include/ankerl/unordered_dense.h:1494-1502 | Gives back blocks from the end only, keeps every element, and leaves less than one block of room. |
| `SegmentedVectors.NumBitsClosest` | include/ankerl/unordered_dense.h:1074-1081 | The largest number of bits for which a block of that many elements fits the segment size. |
| `Walks.ProbeFromGroup` | include/ankerl/unordered_dense.h:2454-2477 | The probe loop from a depth on returns what the specified probe from that depth returns. |
| `Walks.ProbeAfterHome` | include/ankerl/unordered_dense.h:2500-2517 | The probe past the home group, given that home did not hold the key, is the rest of the whole probe. |
| `Walks.ProbeWalk` | include/ankerl/unordered_dense.h:2545-2573 | The whole probe, over any index whose full lanes point below the number of values. |
| `Walks.SlotWalk` | include/ankerl/unordered_dense.h:2715-2737 | The walk for the slot of one value, over the whole path; none stands for the changed-key error. |
| `Walks.PlaceWalk` | include/ankerl/unordered_dense.h:2583-2604 | In place: the first free lane on the walk takes the value and every full group on the way counts it once. |
| `Walks.UncountWalk` | include/ankerl/unordered_dense.h:2611-2623 | In place: the counters of the groups before the one the entry was found in lose one, the stuck ones nothing. |
| `Walks.PrimeRing` | include/ankerl/unordered_dense.h:3306-3309 | The ring holds the hashes of the first sixteen elements, unless one of them throws. |
| `Walks.TurnRing` | include/ankerl/unordered_dense.h:3310-3331 | The hash of element i comes out before its ring slot is refilled, and the ring holds the next sixteen, unless the hash of element i + 16 throws. |
| `Faults.CutAt` | include/ankerl/unordered_dense.h:3565-3609 | Where a throw ends a walk: a comparison and a hash taken in its own turn before their own element, a hash taken ahead in the turn of the element sixteen before it. |
| `Faults.CutStart` | include/ankerl/unordered_dense.h:3565-3571 | A hash that throws among the first sixteen ends a pipelined walk before its first element. |
| `Walks.FillWalk` | include/ankerl/unordered_dense.h:3043-3127 | The pipelined fill, hashing sixteen ahead, builds the index that placing one value after the other builds, of all values or, when the hash of value j throws, of the first j - 16. |
| `Tables.Table.constructor` | include/ankerl/unordered_dense.h:3025-3033 | A new table has no array, reads the four-group sentinel, and is sound. |
| `Tables.Table.Find` | include/ankerl/unordered_dense.h:3813-3824 | Returns a position whose key is the one looked for, or the size; on a sound table the linear scan's answer. |
| `Tables.Table.Probe` | include/ankerl/unordered_dense.h:2545-2573 | In place reads of the groups give the specified probe on every safe table, the sentinel included. |
| `Tables.Table.EraseGroupSlot` | include/ankerl/unordered_dense.h:2627-2634 | Frees a slot and takes its counts back. |
| `Tables.Table.MoveToHome` | include/ankerl/unordered_dense.h:2658-2677 | Moves a found entry to its home group when that has a free lane. |
| `Tables.Table.AllocateFromShift` | include/ankerl/unordered_dense.h:2927-2951 | Array, shift, mask and capacity change together, to an array of empty groups. |
| `Tables.Table.AllocateIfNone` | include/ankerl/unordered_dense.h:3025-3033 | The first array is allocated at the starting size; without memory nothing changes. |
| `Tables.Table.FillFromValues` | include/ankerl/unordered_dense.h:3043-3127 | Fills the emptied array from the values, up to where a hash throws. |
| `Tables.Table.Rebuild` | include/ankerl/unordered_dense.h:3129-3152 | A new array filled with all the values, or up to where a hash throws. |
| `Tables.Table.PopBack` | include/ankerl/unordered_dense.h:3129-3152 | Takes the appended value out again, which restores the state before the insert. |
| `Tables.Table.IncreaseSize` | include/ankerl/unordered_dense.h:3129-3152 | Out of range or of memory the value is taken out again; otherwise the array is doubled and filled, and a hash that throws on the way leaves the value in and the array filled in part. |
| `Tables.Table.PlaceElement` | include/ankerl/unordered_dense.h:3267-3284 | Appends a value and points a slot at it, growing past the capacity; a value that cannot be appended changes nothing. |
| `Tables.Table.InsertHashed` | include/ankerl/unordered_dense.h:3425-3443 | The insert with a hash computed beforehand is the specified insert, whatever trouble it runs into. |
| `Tables.Table.Insert` | include/ankerl/unordered_dense.h:3657-3728 | try_emplace is the specified insert in every outcome, with the position and whether it inserted. |
| `Tables.Table.PlaceAppended` | include/ankerl/unordered_dense.h:3275-3282 | Points a slot at the value appended last, or grows, or takes it out again where there is no memory or no larger array. |
| `Tables.Table.EmplaceValueFirst` | include/ankerl/unordered_dense.h:4407-4432 | emplace that appends the value before it looks the key up ends, in every outcome, where the insert that looks first ends, except that a value that cannot be appended fails it even where the key is present. |
| `Tables.Table.AppendThenLookUp` | include/ankerl/unordered_dense.h:4412-4432 | The same with the array there: the appended value changes no probe, and is taken out again when the key is found. |
| `Tables.Table.FinishErase` | include/ankerl/unordered_dense.h:3158-3171 | The last value fills the hole and its slot is turned to the new position; false when that slot is not found. |
| `Tables.Table.EraseAtSlot` | include/ankerl/unordered_dense.h:3175-3199 | Frees the slot and closes the hole: the specified erase of a slot, in the branch where the handler the value is given to throws as in the other. |
| `Tables.Table.Erase` | include/ankerl/unordered_dense.h:3201-3210 | The specified erase by key, with the number of values erased. |
| `Tables.Table.EraseIndex` | include/ankerl/unordered_dense.h:4523-4545 | The specified erase by position, handing out the value that was there, with the same result when the handler throws. |
| `Tables.Table.ReplaceKey` | include/ankerl/unordered_dense.h:4489-4513 | The specified re-keying, with the position returned and whether the key was put there. |
| `Tables.Table.ClearMetadata` | include/ankerl/unordered_dense.h:1839-1846 | Zeroes fingerprints and counters of every block and leaves the value indices. |
| `Tables.Table.Clear` | include/ankerl/unordered_dense.h:4165-4170 | Empties values and index unless there are no values. |
| `Tables.Table.ExtractAll` | include/ankerl/unordered_dense.h:4226-4235 | Hands out all values in order and empties the index. |
| `Tables.Table.CalcShiftsForSize` | include/ankerl/unordered_dense.h:2796-2811 | The loop computes the specified shift. |
| `Tables.Table.Refill` | include/ankerl/unordered_dense.h:5041-5061 | The same array cleared and filled again, or up to where a hash throws. |
| `Tables.Table.Rehash` | include/ankerl/unordered_dense.h:5041-5061 | The specified rehash: a new array, the same one cleared and filled again, or nothing; cut short where a hash throws. |
| `Tables.Table.Reserve` | include/ankerl/unordered_dense.h:5063-5074 | The specified reserve, without a change when there is no memory; cut short where a hash throws. |
| `Tables.Table.SetMaxLoadFactor` | include/ankerl/unordered_dense.h:5029-5039 | The load factor, cut at 1, and the capacity that belongs to it. |
| `RangeInsert.InsertWalk` | include/ankerl/unordered_dense.h:3305-3331 | The pipelined walk ends in the state of the one-at-a-time loop, also when an insert grows the index or fails while hashes are in the ring, or a hash or a comparison throws. |
| `RangeInsert.InsertRange` | include/ankerl/unordered_dense.h:3293-3332 | insert(first, last) as a whole: nothing for an empty range, the first array before anything is hashed, then the walk. |
| `RangeInsert.InsertAllSound` | include/ankerl/unordered_dense.h:3293-3332 | That loop keeps a sound table sound, unless it ends in the middle of a growth, and inserts the elements handled one by one. |
| `RangeInsert.InsertEachIs` | include/ankerl/unordered_dense.h:3293-3332 | Its values are the old ones and, in order, the elements whose key was neither in the table nor earlier in the range: the first occurrence wins. |
| `Replacing.DedupKeeps` | include/ankerl/unordered_dense.h:4311-4326 | The plain dedup loop leaves distinct keys, all the keys of the container, and only elements of it. |
| `Replacing.DedupMoves` | include/ankerl/unordered_dense.h:4311-4326 | No more elements stand in another place than were dropped: a hole is filled with the last element and nothing else moves. |
| `Replacing.NoRepetition` | include/ankerl/unordered_dense.h:4311-4326 | A container without repetitions is kept as it is, in order. |
| `Replacing.DedupTurn` | include/ankerl/unordered_dense.h:4312-4326 | One turn drops a repeated key by pulling the last value into its place, or indexes the value; the index over the values handled stays that of a build. |
| `Replacing.RingAfterDrop` | include/ankerl/unordered_dense.h:3381-3407 | When the last value is pulled into the hole, only the ring entry of that position is stale. |
| `Replacing.RingAfterPlace` | include/ankerl/unordered_dense.h:3381-3407 | When a value is indexed, its ring slot takes the element sixteen further on. |
| `Replacing.PipelinedTurn` | include/ankerl/unordered_dense.h:3381-3407 | One pipelined turn takes the hash of its own element out of the ring, and the values still to handle shrink. |
| `Replacing.DedupPipelined` | include/ankerl/unordered_dense.h:3341-3408 | The pipelined prefix keeps what every turn of the plain loop keeps. |
| `Replacing.DedupAll` | include/ankerl/unordered_dense.h:4303-4326 | Pipelined part and plain loop together come to the values and the index of the plain loop on the whole container. |
| `Replacing.ReplacedSound` | include/ankerl/unordered_dense.h:4239-4327 | replace makes a sound table out of any safe one and any container, with distinct keys, the container's key set and only its elements. |
| `Replacing.ReplaceWithSound` | include/ankerl/unordered_dense.h:4239-4327 | replace keeps a table safe, makes it or keeps it sound, and leaves the values that remain, or the old ones where it fails. |
| `Replacing.Replace` | include/ankerl/unordered_dense.h:4239-4327 | replace is that in every outcome: it fails exactly for too large a container, or for want of memory where there is no array or one too small. |
| `Frames.ReplaceIsRebuild` | include/ankerl/unordered_dense.h:4303-4326 | The index replace leaves is, fingerprints, counters and pointed-at values, one filled afresh from the values that remain. |
| `Merging.MergeFromIs` | include/ankerl/unordered_dense.h:3582-3615 | The destination becomes its old values and, in order, the source elements the walk came to whose key was absent; the source keeps the others in order; the walk ends at the end or where it is interrupted, unless it loses an element whose key was absent. |
| `Merging.MergeInserts` | include/ankerl/unordered_dense.h:3582-3615 | A merge does to its destination what a range insert of the same elements does. |
| `Merging.MergeSound` | include/ankerl/unordered_dense.h:3499-3640 | Merging two sound tables, with one key equality and any two hashes, to the end or interrupted anywhere, leaves a destination with those values, sound unless it ended in the middle of a growth, and a source that is sound once its index has been filled again. |
| `Merging.MergeTurn` | include/ankerl/unordered_dense.h:3582-3615 | One element stays, moved down over the gap, or leaves for the destination, which may grow. |
| `Merging.MergeWalk` | include/ankerl/unordered_dense.h:3580-3624 | The walk, hashing ahead or not, comes to the list merge while it compacts the source in place, cut short where the throw of a hash or a comparison falls: sixteen elements earlier for a hash taken ahead. |
| `Merging.DropTailAndReindex` | include/ankerl/unordered_dense.h:3454-3469 | Drops the tail and rebuilds the source's index, unless nothing was taken, up to where the source's hash throws. |
| `Frames.SourceIsRebuild` | include/ankerl/unordered_dense.h:3454-3469 | A source that a merge took nothing from stays exactly as it was; the index of any other is one filled afresh. |
| `Interruptions.HashesAheadWhen` | include/ankerl/unordered_dense.h:3554 | merge hashes ahead if and only if an array of 8192 groups, 4096 of the wide ones, is too small for the values of both tables. |
| `Merging.CompactAndReindex` | include/ankerl/unordered_dense.h:3474-3482 | Closes the gap an interrupted or failed walk left and rebuilds the source's index, up to where the source's hash throws. |
| `Merging.MergeWithArray` | include/ankerl/unordered_dense.h:3549-3640 | The choice between ring and plain walk, then the repair: the state of both tables after any throw, failed growth or failed append. |
| `Merging.Merge` | include/ankerl/unordered_dense.h:3499-3640 | merge as a whole, unchanged for a merge into itself, an empty source or no memory for a first array; the destination valid unless a growth was cut short, the source whenever its index was filled to the end or nothing left it. |
| `Bulk.VisitOne` | include/ankerl/unordered_dense.h:3780-3806 | A key whose home lanes were matched beforehand is found where find finds it. |
| `Bulk.VisitChunk` | include/ankerl/unordered_dense.h:3767-3808 | Three passes over at most sixteen keys visit what single finds visit. |
| `Bulk.Visit` | include/ankerl/unordered_dense.h:3751-3810 | visit calls back on the elements single finds return, in key order with repetitions, for ranges of any length. |
| `Bulk.VisitIsScan` | include/ankerl/unordered_dense.h:3751-3810 | On a sound table those are the elements a linear scan finds. |
| `Bulk.Equals` | include/ankerl/unordered_dense.h:5093-5115 | operator== on two tables, and for a sound left side true if and only if the maps are equal. |
| `Bulk.VerifyAll` | include/ankerl/unordered_dense.h:5003-5009 | verify(full) looks every value's key up and compares positions. |
| `Bulk.Verify` | include/ankerl/unordered_dense.h:4995-5017 | verify at both levels. |
| `Interruptions.InterruptedFill` | include/ankerl/unordered_dense.h:3043-3127 | A fill cut short after n values leaves a table if and only if those are all the values; else all of them are counted and exactly the first n are found. |
| `Interruptions.InterruptedGrowth` | include/ankerl/unordered_dense.h:3129-3152 | An insert leaves a table if and only if no hash throws in a growth it needs; else the new value and the old ones are counted and only those the fill had come to are found. |
| `Interruptions.CutShortWhen` | include/ankerl/unordered_dense.h:3129-3152 | An insert is cut short if and only if its key is absent, it has to grow and has the memory, and the value whose hash throws is among those it then hashes. |
| `Interruptions.GrowthFails` | include/ankerl/unordered_dense.h:3129-3152 | A reachable failure: one value that is found, an insert whose growth hashes it and throws, and then two values neither of which is found. |
| `Interruptions.InterruptedRehash` | include/ankerl/unordered_dense.h:5041-5061 | A rehash leaves a table if and only if no hash throws in its fill; else the values are kept and only those it had come to are found. |
| `Interruptions.InterruptedReserve` | include/ankerl/unordered_dense.h:5063-5074 | The same of a reserve. |
| `Interruptions.InterruptedEmplace` | include/ankerl/unordered_dense.h:4407-4416 | A value that was appended before its key was looked up, by an emplace whose hash or comparison then throws, leaves no table: it is counted and not found. |
| `Interruptions.RepairSound` | include/ankerl/unordered_dense.h:3454-3482 | The source of a merge, put back together, is sound if and only if nothing left it or its hash throws on none of the elements kept; else exactly the first of those are found. |
| `Interruptions.MergeInterrupted` | include/ankerl/unordered_dense.h:3616-3639 | What an interrupted merge guarantees: a destination with the absent elements the walk came to, sound if and only if it did not end in the middle of a growth; a source with every other one, in order, but the one lost, sound if and only if nothing was taken from it or its own hash does not throw again. |
| `Interruptions.RepairFails` | include/ankerl/unordered_dense.h:3624-3634 | A reachable failure: two keys in the source, the hash of the second throws and throws again in the repair; the source then counts one value and does not find it. |
| `Erasures.EraseRange` | include/ankerl/unordered_dense.h:4557-4579 | Range erase leaves prefix, the last m values in reverse and the rest of the tail, m the smaller of range and tail length; it is a run of as many single erases as the range is long, and on a sound table does not fail and keeps soundness. |
| `Erasures.ErasedIfKeeps` | include/ankerl/unordered_dense.h:5279-5285 | What the loop keeps is, as a multiset, exactly the elements the predicate is false of, although every erase moves the last value. |
| `Erasures.EraseIf` | include/ankerl/unordered_dense.h:5271-5288 | erase_if asks about every original element exactly once, last first, is a run of as many single erases as it returns, and leaves the loop's values. |
| `Erasures.EraseAtValues` | include/ankerl/unordered_dense.h:3158-3171 | Even on a merely safe index an erase that goes through removes its position from the values. |
| `Loading.ShapeFitsIff` | include/ankerl/unordered_dense.h:2969-2984 | The block counts let through are exactly those of the arrays a table can have. |
| `Loading.DescribeLoadedIndex` | include/ankerl/unordered_dense.h:2988-2996 | The shift recovered from a block count is the one whose array has that many groups. |
| `Loading.CheckBlock` | include/ankerl/unordered_dense.h:1613-1634 | One block: counts its full slots and says whether every slot so far points at a value of its own, by one bit per value. |
| `Loading.CheckIndexUnique` | include/ankerl/unordered_dense.h:1649-1661 | The checked load accepts an index if and only if its full slots are in bijection with the values. |
| `Loading.AcceptedSafe` | include/ankerl/unordered_dense.h:3991-4001 | An accepted index with its values is a table of the lower tier. |
| `Loading.Load` | include/ankerl/unordered_dense.h:2999-3023 | The constructor from values and index accepts exactly what the trust level promises and holds those values and that index. |
| `Loading.LoadOwn` | include/ankerl/unordered_dense.h:4957-4979 | Loading a table's own index and values is accepted, recovers groups and shift, answers every lookup alike, keeps soundness, and is a change of load factor and capacity only. |

## Left out

- The load factor is a fraction and the capacity the floor of slots times it. The source multiplies floats; the number of slots is a power of two, so its product is exact for every float load factor, and the fraction of such a float gives the same floor.
- Key equality is equality of keys, and the hash agrees with it: a user's comparison that is not an equivalence, or a hash that disagrees with it, is not modelled. Transparent lookup and precomputed hashes are the same code on the same hash.
- Throwing: a hash or comparison that throws in a range insert or a merge, a hash that throws while a growth, a rehash, a reserve or the repair of a merge fills an index, a failed append, and a handler that throws in an erase are modelled. A hash or comparison that throws before an operation's first write leaves everything as it was. One that throws in an emplace that appends first is not a case of the method; `Interruptions.InterruptedEmplace` is about the state it leaves. A hash that throws in `replace`, or while an erase looks for the last value's slot, a throwing move other than into an append, a throwing predicate of `erase_if` or callback of `visit`, and any of them calling back into the table, are not modelled.
- The allocations of a load (bitmap and blocks) do not fail, nor do the value container's `reserve` and `shrink_to_fit`, which `reserve` and `rehash` call. A value container that fails to append leaves its values as they were, as `std::vector` does.
- `insert_or_assign`, `operator[]`, `at`, `count`, `contains`, iterators: thin wrappers or easy.
- Copying, moving, swapping, allocator propagation, `pmr`, custom containers.
- The `& mask` of a probe step is a sum that wraps once; `Bits.NextIsMaskedSum` shows the two agree.
- Prefetching, forced inlining and the two shapes of the probe for cheap and expensive comparisons, which only affect speed; the SSE2 and NEON forms of the fingerprint match. The walks of the class use the word form.
- The ring of `replace` holds decomposed hashes as home and fingerprint; the block pointer beside them is an address derived from the home.
- The group array is one array of blocks; a block is a value that is read, changed and written back.
- What a hash computes from the bytes it reads: `HashReads` follows every path of `hash_bytes` for what it reads, not for its value; secrets, mixing and hash quality are not part of this model.
- `segmented_vector`: allocation failure, constructors and destructors of elements, iterators, copy and move.
- Loading: the alignment test of the address, the read-only views and the unique check's fused copy, which is a copy followed by the check.
- Stable storage such as mapped files and huge pages is not part of this model.
- Tables.Table.SetMaxLoadFactor: a load factor below zero or not a number is not modelled.
