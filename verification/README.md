# Verified models of the flight and ground code

A Dafny project that models seven independent pieces of this repository and proves what they are
for. Each source file has its own module; classes in the source are classes here, loops are loops,
and each imperative method is proved against a specification about which the main theorems are
stated.

* **Radix sort** (`RadixSort.dfy`, `SortTheory.dfy`, `SortKeys.dfy`): byte-wise counting sort with
  32-bit offsets, its stability across passes, and the order-preserving keys for signed integers and
  floats. The exact limit is 2^32 bytes.
* **Slate allocator** (`AlignedBuffer.dfy`, `SlateLayout.dfy`): a growing aligned buffer, and a bump
  allocator that recycles padding; regions and free chunks cover a shard exactly.
* **Spin lock** (`SpinLock.dfy`): a transition system over any number of threads, with loads and
  compare-exchanges as separate steps.
* **Voter and digest** (`SlateCombiner.dfy`, `ShardDigest.dfy`): freshness of redundant sources,
  binned voting, and the injectivity theorems of the 128-bit digest.
* **Event registry and signals** (`FdBag.dfy`, `Signal.dfy`): swap-removal with deferred deletion,
  and re-entrant emission; callbacks are arbitrary finite scripts. Both refine a plain set or map.
* **Command uplink and multi-set** (`CommandUplink.dfy`, `MultiSet.dfy`): the single-flight poller
  and its replay check over whole runs, and the all-or-nothing command with its rollback.
* **Probing hash map** (`FastMap.dfy`): refinement of a finite map.

`Common.dfy` holds what several modules share. Check everything with `dafny verify dfyconfig.toml`.

Answers of the kernel, addresses handed out by the allocator, the state of a channel, random delays,
signature checks and the outcome of handing on a command are parameters of the operations.

## Where the code does less than it says

* `SortInternal` keeps byte offsets in 32 bits: past 2^32 bytes some inputs come out unsorted
  (`SortTheory.WrapLosesRecords`, and for signed integers and floats `SortKeys.WrapLosesSignedRecords`
  and `SortKeys.WrapLosesFloats`).
* `allocate_element` writes the shard size before its overflow check; after that abort the shard is
  inconsistent unless truncation gives back the size it had (`SlateLayouts.OverflowBreaksExactly`,
  with both cases in `SlateLayouts.OverflowWitnesses`).
* A refused `epoll_ctl` leaves `active_count` wrong exactly when read/write interest comes or goes
  with it, and a refused removal exactly when the sink has such interest (`FdBags.RefreshCount`,
  `FdBags.DropCount`; failing inputs in `FdBags.RefusalMiscounts`).
* A poll that is due while the client has no stub, or a completion that the worker drops, leaves the
  poller waiting for ever (`CommandUplink.WedgesExactly`, `CommandUplink.LostCallSilences`).
* The replay check ignores commands while nothing was accepted, and does not count commands that
  could not be issued (`CommandUplink.ReplayExactly`, `CommandUplink.UnissuedMayComeBack`).
* The rollback of a multi-set runs forwards and refuses static elements that the first pass writes
  (`MultiSet.AllOrNothingExactly`; failing inputs in `MultiSet.EchoIsNotRestored` and
  `MultiSet.StaticStaysChanged`).
* A poll forced, or polling disabled and enabled again, while a response is awaited may break the
  rate limit that dispatch promises (`CommandUplink.RateLimitExactly`; failing inputs in
  `CommandUplink.ForcedPollComesTooSoon` and `CommandUplink.ReenabledPollComesTooSoon`).
* The hash map reads four lanes at any index; only some homes keep that inside the table, and the
  real hash produces others (`FastMap.HomeFitsExactly`, `FastMap.RealHashLeavesTable`).
* Insertion is documented as guaranteed up to kCapacity. It is guaranteed up to a quarter of the
  slots (`FastMap.FullPathNeedsQuarter`), and no further (`FastMap.QuarterIsTight`, and with the real
  hash `FastMap.FifthKeyIsRefused`).

## Model

| member | source | states |
|---|---|---|
| `RadixSort.CountBytes` | ground/drone/util/fast_sort/fast_sort.cc:17-19 | the byte counts of a pass, in bytes of records, wrapped at 2^32 as the 32-bit array wraps them |
| `RadixSort.PrefixSums` | ground/drone/util/fast_sort/fast_sort.cc:20-25 | in place, each count becomes the (wrapped) offset at which the group of its byte value starts |
| `RadixSort.Scatter` | ground/drone/util/fast_sort/fast_sort.cc:26-31 | within 2^32 bytes the destination is the stable distribution of the records by byte b; beyond, no byte at or past 2^32 is written |
| `RadixSort.FilledStep` | ground/drone/util/fast_sort/fast_sort.cc:28-30 | a record written at the running offset of its group extends that group and disturbs none of the other 255 |
| `RadixSort.GroupsCoverAll` | ground/drone/util/fast_sort/fast_sort.cc:20-31 | the 256 groups together hold every byte of the input, so the scatter has no gaps and no overlaps |
| `RadixSort.FillIsWholeRecords` | ground/drone/util/fast_sort/fast_sort.cc:28-29 | even when the offsets have wrapped, a copy never runs past byte 2^32, for every supported width |
| `RadixSort.SortInternal` | ground/drone/util/fast_sort/fast_sort.cc:7-37 | p ends up with the composition of all passes, whichever buffer the last pass wrote, for every width 1, 2, 4, 8, 16; past 2^32 bytes it keeps old bytes |
| `SortTheory.PassesAreStableSort` | ground/drone/util/fast_sort/fast_sort.cc:11-32 | after j passes the records are a stable sort by their low j bytes: sorted, and the records of each low value in their original order |
| `SortTheory.PassesSort` | ground/drone/util/fast_sort/fast_sort.cc:11-32 | all passes give a permutation of the input sorted by little-endian unsigned value |
| `SortTheory.SameClassesSameRecords` | ground/drone/util/fast_sort/fast_sort.cc:26-31 | two lists that agree on every class of equal low bytes are permutations of each other |
| `SortTheory.SortUnsigned` | ground/drone/util/fast_sort/fast_sort.cc:38-41 | the unsigned overloads leave a sorted permutation of the input in p whenever n * kBytes <= 2^32 |
| `SortTheory.WrapLosesRecords` | ground/drone/util/fast_sort/fast_sort.cc:17-31 | for every n and width with n * kBytes > 2^32 some input cannot come out sorted, so the bound is exact |
| `SortKeys.FlipSignMaps` | ground/drone/util/fast_sort/fast_sort.cc:44-48 | flipping the sign bit is its own inverse and turns the order of signed values into that of unsigned ones, for every width |
| `SortKeys.SortSigned` | ground/drone/util/fast_sort/fast_sort.cc:66-73 | the signed overloads leave a permutation sorted by two's-complement value within 2^32 bytes; beyond, the bytes they leave behind |
| `SortKeys.KeyMapsInverse` | ground/drone/util/fast_sort/fast_sort.cc:106-111 | the two float key maps are inverses of each other on all 2^32 bit patterns |
| `SortKeys.KeyOfFloat` | ground/drone/util/fast_sort/fast_sort.cc:106-107 | the unsigned value of the key of a float, for every bit pattern |
| `SortKeys.KnownFloats` | ground/drone/util/fast_sort/fast_sort.cc:102-112 | the values that the model gives to some encodings of the floats that are sorted: 1, -1, 2, 1.5, the smallest numbers, zeros, infinities and NaNs |
| `SortKeys.AbsValueMonotone` | ground/drone/util/fast_sort/fast_sort.cc:102-112 | a larger magnitude encoding is a larger absolute value |
| `SortKeys.KeyOrderIsTotalOrder` | ground/drone/util/fast_sort/fast_sort.cc:106-107 | the order of the keys is exactly totalOrder of section 5.10 of IEEE 754-2019, NaNs and signed zeros included |
| `SortKeys.MapPermutation` | ground/drone/util/fast_sort/fast_sort.cc:105-111 | mapping both sides of a permutation by one function keeps it a permutation |
| `SortKeys.MapInPlace` | ground/drone/util/fast_sort/fast_sort.cc:105-111 | the loops before and after the sort replace every record by its image, in place |
| `SortKeys.SortMapped` | ground/drone/util/fast_sort/fast_sort.cc:44-48 | sorting mapped keys and mapping back sorts by the key, for any inverse pair of maps that turns the key order into the unsigned one |
| `SortKeys.SortFloat` | ground/drone/util/fast_sort/fast_sort.cc:102-112 | Sort(float*) leaves a permutation of the input in that total order within 2^32 bytes; beyond, the bytes it leaves behind |
| `SortKeys.WrapLosesMappedRecords` | ground/drone/util/fast_sort/fast_sort.cc:17-48 | for every length and width past 2^32 bytes some input does not come out sorted by the key, for any key that a map turns into unsigned order |
| `SortKeys.WrapLosesSignedRecords` | ground/drone/util/fast_sort/fast_sort.cc:66-73 | so the bound is exact for the signed overloads |
| `SortKeys.WrapLosesFloats` | ground/drone/util/fast_sort/fast_sort.cc:102-112 | and for floats in their total order |
| `SpinLock.MutualExclusion` | ground/drone/util/concurrency/lock.h:71-142 | for any number of threads and any schedule: a writer is alone, the low 11 bits are the writer bit or the number of readers, and there are at most 1023 readers |
| `SpinLock.NextKeepsInv` | ground/drone/util/concurrency/lock.h:71-142 | every atomic step of every thread, spurious compare-exchange failures included, keeps the counts, a waiter behind every published priority and a writer behind the spin bit |
| `SpinLock.Run` | ground/drone/util/concurrency/lock.h:71-230 | every state that any schedule reaches keeps those invariants |
| `SpinLock.UnionIsSum` | ground/drone/util/concurrency/lock.h:88-125 | a bitwise union of fields, as the source writes them, is their sum in the model, for every value of the fields |
| `SpinLock.MaskIsRemainder` | ground/drone/util/concurrency/lock.h:76-111 | masking a word with the spin bit minus one leaves the low 11 bits the model computes by a remainder, for every word |
| `SpinLock.BitIsField` | ground/drone/util/concurrency/lock.h:111-111 | masking a word with the spin bit leaves the field the model computes, for every word |
| `SpinLock.UnlockBorrowsNothing` | ground/drone/util/concurrency/lock.h:134-142 | an unlock takes exactly the holder's bits: priority and spin bits stay |
| `SpinLock.StepEffects` | ground/drone/util/concurrency/lock.h:73-131 | all that a thread holding nothing can do to the word: take it, count itself in, or publish a priority below its own new one |
| `SpinLock.WrittenWords` | ground/drone/util/concurrency/lock.h:79-127 | the fields of every word the lock writes, and that the publisher's raised priority exceeds the word |
| `SpinLock.WriterTurn` | ground/drone/util/concurrency/lock.h:71-100 | one unfailing compare-exchange of WriteLock: in exactly when nobody is inside and the priority exceeds the published one; else the holders stay, the priority rises, and a writer more than 16 steps ahead sets the spin bit and publishes its priority |
| `SpinLock.ReaderTurn` | ground/drone/util/concurrency/lock.h:105-131 | the same for ReadLock, which needs room for a reader and no announced writer, and sets no spin bit |
| `SpinLock.FailedTurn` | ground/drone/util/concurrency/lock.h:76-128 | a compare-exchange that fails leaves the word alone; the priority rises unless the thread was about to get in |
| `SpinLock.NewcomerYields` | ground/drone/util/concurrency/lock.h:73-128 | a thread that starts to wait cannot pass a published priority in its first turn |
| `SpinLock.TryExactly` | ground/drone/util/concurrency/lock.h:174-228 | undisturbed, TryWriteLock succeeds exactly when nobody is inside and TryReadLock exactly when there is room and no announced writer to let past; a refusal changes nothing |
| `SpinLock.TryGivesUp` | ground/drone/util/concurrency/lock.h:174-228 | if the word changed meanwhile a Try function fails and changes nothing |
| `SpinLock.WriterAnnounces` | ground/drone/util/concurrency/lock.h:71-100 | with readers inside that stay, a writer left alone has precedence after a number of turns fixed beforehand |
| `SpinLock.WriterPrecedenceIsEffective` | ground/drone/util/concurrency/lock.h:109-120 | while the spin bit is set with readers inside, no step of any thread, TryReadLock included, adds a reader |
| `SpinLock.SpinBitHasAWriter` | ground/drone/util/concurrency/lock.h:84-92 | the spin bit is set only while some thread is inside its WriteLock loop |
| `SpinLock.IdleLockIsZero` | ground/drone/util/concurrency/lock.h:43-47 | with no holder and no waiter the word is 0, so the destructor check cannot fire |
| `SpinLock.NeverWedged` | ground/drone/util/concurrency/lock.h:73-131 | with nobody inside and at least one waiter, some waiter passes its guard |
| `SpinLock.WaiterGetsIn` | ground/drone/util/concurrency/lock.h:71-131 | on a free lock any waiter left alone gets in after a number of turns that its priority and the word fix beforehand |
| `SpinLock.FreeStep` | ground/drone/util/concurrency/lock.h:73-131 | on a free lock any step of a thread without the lock lets it in or leaves the word alone |
| `SpinLock.WaiterIsBounded` | ground/drone/util/concurrency/lock.h:71-131 | while nobody is inside, under any interleaving, a waiter has fewer turns that do not fail spuriously than its priority and the word fix beforehand |
| `SpinLock.SomebodyGetsIn` | ground/drone/util/concurrency/lock.h:71-131 | hence, whatever the other threads do in between, once some waiter has that many turns on a lock that was free, some thread has got in |
| `FastMap.InternalCapHoldsCapacity` | ground/drone/util/fast_map/fast_map_common.h:35-39 | the table is a whole number of buckets with a slot for every key it may hold |
| `FastMap.InternalCapIsLeast` | ground/drone/util/fast_map/fast_map_common.h:35-39 | the table is the smallest power of two from 16 on that a full map loads to at most 80 percent |
| `FastMap.WindowInside` | ground/drone/util/fast_map/fast_map_common.h:52-78 | every probe of a home that fits its bucket stays inside the table |
| `FastMap.HomeFitsExactly` | ground/drone/util/fast_map/fast_map_common.h:52-78 | all probes of the loop stay inside the table if and only if the four lanes of the home stay inside their bucket |
| `FastMap.RealHashLeavesTable` | ground/drone/util/fast_map/fast_map_common.h:145-154 | the real hash does not keep to that: in a 16-slot table the first probe for key 5 reads a lane past the end |
| `FastMap.StaysPlaced` | ground/drone/util/fast_map/fast_map_common.h:66-77 | filling an empty slot leaves every key in its slot and reachable on its probe path |
| `FastMap.ProbeNarrows` | ground/drone/util/fast_map/fast_map_common.h:86-104 | a probe that finds neither the key nor an empty lane moves the search on without passing the key |
| `FastMap.FastMap32.Find` | ground/drone/util/fast_map/fast_map_common.h:83-106 | returns the slot of the value of the key exactly when the key is in the abstract map |
| `FastMap.FastMap32.TryWindow` | ground/drone/util/fast_map/fast_map_common.h:54-78 | one probe: the slot of the key, or the first empty lane of a key that is absent, or a full window that the key is not in |
| `FastMap.FastMap32.Locate` | ground/drone/util/fast_map/fast_map_common.h:51-81 | the probe loop of Insert ends at the slot of the key, at the first empty lane on its path if the key is absent, or nowhere, and then every window of the path is full |
| `FastMap.FastMap32.Insert` | ground/drone/util/fast_map/fast_map_common.h:49-81 | succeeds exactly for a known key, or below kCapacity with an empty lane on the path of the key, and always while the table is less than a quarter full; failure changes nothing; a new key takes an empty lane of the first window with one; no key ever moves |
| `FastMap.FastMap32.Clear` | ground/drone/util/fast_map/fast_map_common.h:132-139 | empties table and map |
| `FastMap.FastMap32.Run` | ground/drone/util/fast_map/fast_map_common.h:49-139 | every run of Insert, Find and Clear answers as a finite map of at most kCapacity keys does, with each refusal due to capacity or to a full path in the table that the run has built |
| `FastMap.FindsLastWrite` | ground/drone/util/fast_map/fast_map_common.h:49-139 | in every run on a new map a search answers the last successful insertion of its key since the last clear |
| `FastMap.FullPathNeedsQuarter` | ground/drone/util/fast_map/fast_map_common.h:66-80 | a path can be full only when a quarter of all slots hold keys, so that many insertions are guaranteed |
| `FastMap.WindowsApart` | ground/drone/util/fast_map/fast_map_common.h:52-78 | different probes of one loop look at different lanes |
| `FastMap.HashInvertible` | ground/drone/util/fast_map/fast_map_common.h:141-154 | the mix of the hash has an inverse, so different keys have different hashes before masking |
| `FastMap.QuarterIsTight` | ground/drone/util/fast_map/fast_map_common.h:51-81 | and no more: for every table size of at most four slots per usable key there are a hash, a quarter as many keys and a table of them in which the path of a further key is full |
| `FastMap.LargeTableHasRoom` | ground/drone/util/fast_map/fast_map_common.h:51-81 | in a larger table no path can be full |
| `FastMap.FifthKeyIsRefused` | ground/drone/util/fast_map/fast_map32.h:11-11 | with the real hash, a map made for 12 keys takes four and then refuses a fifth |
| `ShardDigest.FMixBijective` | vehicle/src/hash/xxh.h:27-35 | the finaliser mix is a bijection of 64-bit words, with its inverse given |
| `ShardDigest.MixKInvertible` | vehicle/src/hash/xxh.h:60-62 | each key mix is a bijection |
| `ShardDigest.BlockStepBijective` | vehicle/src/hash/xxh.h:60-63 | for a fixed block the block step is a bijection of (h1, h2) |
| `ShardDigest.BlockStepInjectiveInBlock` | vehicle/src/hash/xxh.h:60-63 | for a fixed state the block step is injective in the block |
| `ShardDigest.LoadInjective` | vehicle/src/hash/xxh.h:36-41 | a load loses nothing: equal words mean equal bytes |
| `ShardDigest.HighTailWord` | vehicle/src/hash/xxh.h:71-78 | cases 15 to 9 of the switch give the zero-padded second word of the tail |
| `ShardDigest.LowTailWord` | vehicle/src/hash/xxh.h:81-89 | cases 8 to 1 give the zero-padded first word |
| `ShardDigest.TailSwitch` | vehicle/src/hash/xxh.h:66-93 | the whole switch, with its fall-through, is the tail step |
| `ShardDigest.TailStepInjectiveInTail` | vehicle/src/hash/xxh.h:66-93 | different tails of one length give different states |
| `ShardDigest.FinaliseBijective` | vehicle/src/hash/xxh.h:95-103 | the end of the digest is a bijection of (h1, h2) for each length |
| `ShardDigest.Digest` | vehicle/src/hash/xxh.h:44-104 | the imperative digest is the fold of block steps, tail step and finaliser |
| `ShardDigest.AbsorbKeepsApart` | vehicle/src/hash/xxh.h:55-64 | states that differ after block m differ after every further common block |
| `ShardDigest.BlockChangeIsDetected` | vehicle/src/hash/xxh.h:44-104 | two buffers of one length that differ only inside one 16-byte block never collide |
| `ShardDigest.TailChangeIsDetected` | vehicle/src/hash/xxh.h:44-104 | nor do two that differ only inside the tail |
| `ShardDigest.SeedChangeIsDetected` | vehicle/src/hash/xxh.h:44-104 | nor does one buffer under two different seeds |
| `ShardDigest.KnownDigest` | vehicle/src/hash/xxh.h:48-105 | the digest of a 43-byte text with seed zero is the published one of MurmurHash3_x64_128 |
| `AlignedBuffers.AlignUpBounds` | vehicle/src/bullwinkle/all/AlignedBuffer.cc:66-67 | the aligned pointer is the next multiple of the alignment and less than one alignment away |
| `AlignedBuffers.EnsuredKeepsBytes` | vehicle/src/bullwinkle/all/AlignedBuffer.cc:159-219 | ensure keeps the bytes in use, zeroes the new ones and makes room for the request |
| `AlignedBuffers.GrowthIsAmortized` | vehicle/src/bullwinkle/all/AlignedBuffer.cc:177-218 | over any sequence of requests reallocation copies at most 3 times the final capacity, and capacity stays within max(3072, a + a/2) for the largest request a |
| `AlignedBuffers.GrowthFollowsBuffer` | vehicle/src/bullwinkle/all/AlignedBuffer.cc:177-218 | capacity and length of that account are those of a buffer |
| `AlignedBuffers.AlignedBuffer.Ensure` | vehicle/src/bullwinkle/all/AlignedBuffer.cc:159-219 | the in-place buffer does what the specification says, or rejects the alignment and stays as it is; the bytes it has copied one by one are those of the account |
| `AlignedBuffers.AlignedBuffer.EnsureAll` | vehicle/src/bullwinkle/all/AlignedBuffer.cc:159-219 | any sequence of requests to a real buffer copies at most 3 times its capacity, which stays within the bound |
| `AlignedBuffers.AlignedBuffer.Clone` | vehicle/src/bullwinkle/all/AlignedBuffer.cc:224-244 | a copy of exactly the bytes in use, sharing nothing |
| `AlignedBuffers.AlignedBuffer.Assign` | vehicle/src/bullwinkle/all/AlignedBuffer.cc:107-120 | moves the storage over; assigning a buffer to itself empties it |
| `SlateLayouts.Carve` | vehicle/src/bullwinkle/all/SlateLayout.cc:158-182 | the carving loop turns the gap before an aligned end into aligned power-of-two chunks with nothing left over, so its abort never fires |
| `SlateLayouts.Place` | vehicle/src/bullwinkle/all/SlateLayout.cc:104-151 | a value goes into the smallest free chunk that holds it, else behind the aligned end of the shard; regions and chunks still cover the shard exactly; its bytes are zero; what an overflow leaves behind, and when that is harmless |
| `SlateLayouts.RegionsAreDisjoint` | vehicle/src/bullwinkle/all/SlateLayout.cc:104-182 | granted regions and free chunks are pairwise disjoint |
| `SlateLayouts.RegionsAreInside` | vehicle/src/bullwinkle/all/SlateLayout.cc:104-182 | every granted region lies inside the shard |
| `SlateLayouts.CountedByteHasRegion` | vehicle/src/bullwinkle/all/SlateLayout.cc:104-182 | every byte that is covered lies in one of the regions |
| `SlateLayouts.GrantKeepsShard` | vehicle/src/bullwinkle/all/SlateLayout.cc:111-182 | handing out a region and returning the rest as chunks keeps the exact cover and all old bytes |
| `SlateLayouts.OverflowBreaksExactly` | vehicle/src/bullwinkle/all/SlateLayout.cc:145-147 | the size is written before the overflow check: the shard survives that abort if and only if truncation gives back the old size |
| `SlateLayouts.OverflowWitnesses` | vehicle/src/bullwinkle/all/SlateLayout.cc:145-147 | both happen: a request that breaks the shard and one that does not |
| `SlateLayouts.AddressIsAligned` | vehicle/src/bullwinkle/all/SlateLayout.cc:104-151 | base plus offset meets the alignment the element asked for |
| `SlateLayouts.SlateLayout.AllocateElement` | vehicle/src/bullwinkle/all/SlateLayout.cc:47-206 | exactly when it rejects, overflows, grants without registering, or creates; a new element is aligned, zero and in a region of its own; every other element keeps its bytes and every known path its element; when the layout survives an overflow |
| `SlateLayouts.SlateLayout.TakeMemory` | vehicle/src/bullwinkle/all/SlateLayout.cc:104-182 | the region stays granted even if registration fails afterwards |
| `SlateLayouts.SlateLayout.Register` | vehicle/src/bullwinkle/all/SlateLayout.cc:816-867 | succeeds exactly for a new, accepted path with a valid id, and never disturbs a registered path |
| `SlateLayouts.SlateLayout.CreateView` | vehicle/src/bullwinkle/all/SlateLayout.cc:227-329 | rejects exactly unless the part is aligned, inside the parent and bypasses no validator, and then creates exactly when the path and id are accepted; the view, or view of a view, has the asked type and subsystem and the policy of the parent, shows that part of one granted region and is found under its path, and earlier paths keep their elements |
| `SlateLayouts.SlateLayout.StaticIsReadOnly` | vehicle/src/bullwinkle/all/SlateLayout.cc:17-27 | no element of the static shard is ever writable |
| `SlateLayouts.GuardGrows` | vehicle/src/bullwinkle/all/SlateLayout.cc:260-303 | the guard invariant is kept: a writable element with a validator shares its granted region with no other element |
| `SlateLayouts.ViewIsAdmissible` | vehicle/src/bullwinkle/all/SlateLayout.cc:260-303 | what the check of create_view_element on the parent buys: also a view of a view bypasses no validator of the element it comes from |
| `SlateLayouts.SlateLayout.GetInitialMemory` | vehicle/src/bullwinkle/all/SlateLayout.cc:635-651 | returns the bytes of the element exactly when the type matches |
| `SlateLayouts.SlateLayout.Store` | vehicle/src/bullwinkle/all/SlateLayout.cc:635-651 | after a write through the returned memory every element, parent, view and sibling view shows the written bytes that lie inside it and its old bytes elsewhere |
| `SlateLayouts.StoreKeepsOthers` | vehicle/src/bullwinkle/all/SlateLayout.cc:635-651 | elements of different granted regions share no byte |
| `SlateCombiner.FreshnessOverRuns` | vehicle/src/bullwinkle/all/SlateCombiner.cc:450-510 | over any run of cycles the stored age is the number of cycles since the last update, capped at the threshold |
| `SlateCombiner.ConnectedWindow` | vehicle/src/bullwinkle/all/SlateCombiner.cc:450-510 | a source is connected exactly when it updated in one of the last stale_threshold cycles |
| `SlateCombiner.UpdatesExactly` | vehicle/src/bullwinkle/all/SlateCombiner.cc:465-475 | an update is a value other than zero and the default that is the accepted number or, where any is accepted, not the one of the latest update |
| `SlateCombiner.UpdateIsChange` | vehicle/src/bullwinkle/all/SlateCombiner.cc:465-490 | where any number is accepted, a source updates exactly when its latest valid value changes |
| `SlateCombiner.AgeIsCapped` | vehicle/src/bullwinkle/all/SlateCombiner.cc:450-510 | the age is min(cycles since the last update, threshold), and a source that never updated is stale |
| `SlateCombiner.ConnectedBounds` | vehicle/src/bullwinkle/all/SlateCombiner.cc:490-510 | the voting indices are the connected sources, in order |
| `SlateCombiner.MedianMajority` | vehicle/src/bullwinkle/all/SlateCombiner.cc:1082-1112 | with three values any two equal ones win |
| `SlateCombiner.MedianIsMiddle` | vehicle/src/bullwinkle/all/SlateCombiner.cc:1082-1112 | the median is one of the three and lies between the other two |
| `SlateCombiner.ApplyIsPerElement` | vehicle/src/bullwinkle/all/SlateCombiner.cc:971-1112 | strided in-place processing gives each element the vote of its own inputs |
| `SlateCombiner.ApplyTouchesOutputsOnly` | vehicle/src/bullwinkle/all/SlateCombiner.cc:971-1112 | and changes nothing but the outputs |
| `SlateCombiner.DownselectFollowsMajority` | vehicle/src/bullwinkle/all/SlateCombiner.cc:517-572 | in downselect mode two fully agreeing sources of three decide the whole output |
| `SlateCombiner.MedianFollowsMajority` | vehicle/src/bullwinkle/all/SlateCombiner.cc:578-621 | in per-element mode any two agreeing values of three win |
| `SlateCombiner.VotedValue` | vehicle/src/bullwinkle/all/SlateCombiner.cc:510-620 | one connected source is copied; of two the first is copied in downselect mode, else the larger value taken; of three downselect copies the second if it agrees with the third, else the first, and per-element mode takes a value with one of the others on either side |
| `SlateCombiner.SlateCombiner.InitElement` | vehicle/src/bullwinkle/all/SlateCombiner.cc:880-952 | an element is appended to the bin of its type as one stride; no other element is lost or doubled |
| `SlateCombiner.SlateCombiner.UpdateSources` | vehicle/src/bullwinkle/all/SlateCombiner.cc:450-510 | every source takes its freshness step, and the indices are the connected ones |
| `SlateCombiner.SlateCombiner.AllBinsEqual` | vehicle/src/bullwinkle/all/SlateCombiner.cc:545-557 | two sources agree in every element of every bin |
| `SlateCombiner.SlateCombiner.Select` | vehicle/src/bullwinkle/all/SlateCombiner.cc:510-621 | the voting rule for the connected sources and the mode |
| `SlateCombiner.SlateCombiner.Dispatch` | vehicle/src/bullwinkle/all/SlateCombiner.cc:578-621 | all bins together are one fold of the rule over all elements |
| `SlateCombiner.SlateCombiner.BinEq` | vehicle/src/bullwinkle/all/SlateCombiner.cc:971-988 | the comparison of two sources over a bin, and-ed to the result so far |
| `SlateCombiner.SlateCombiner.BinCopy` | vehicle/src/bullwinkle/all/SlateCombiner.cc:1002-1025 | each output of the bin becomes the value of one source |
| `SlateCombiner.SlateCombiner.BinMax` | vehicle/src/bullwinkle/all/SlateCombiner.cc:1041-1070 | each output becomes the larger of two values |
| `SlateCombiner.SlateCombiner.BinMedian` | vehicle/src/bullwinkle/all/SlateCombiner.cc:1082-1112 | each output becomes the median of three |
| `SlateCombiner.SlateCombiner.ValidateAndCombine` | vehicle/src/bullwinkle/all/SlateCombiner.cc:433-622 | one cycle: every configured element holds the vote of its inputs, nothing else changes, and with no source connected the outputs keep their values |
| `SlateCombiner.SlateCombiner.NextCycle` | vehicle/src/bullwinkle/all/SlateCombiner.cc:433-510 | a cycle adds its freshness values to the history that each source state is a function of |
| `SlateCombiner.SlateCombiner.CombineAll` | vehicle/src/bullwinkle/all/SlateCombiner.cc:433-622 | over any run of cycles, whatever the slate holds before each, every source is as fresh as its history says, and something is connected exactly when some source updated in the last stale_threshold cycles |
| `FdBags.CountIsSize` | vehicle/src/bullwinkle/all/FdBag.cc:189-213 | the number of active slots is the number of attached sinks |
| `FdBags.SwappedIsIndexed` | vehicle/src/bullwinkle/all/FdBag.cc:908-916 | swapping the removed sink to the end keeps every other back-index right |
| `FdBags.RefreshCount` | vehicle/src/bullwinkle/all/FdBag.cc:807-866 | after update_epoll the active count is right exactly when the kernel agreed or read/write interest neither came nor went |
| `FdBags.EnrolCount` | vehicle/src/bullwinkle/all/FdBag.cc:189-251 | the same for attach_fes |
| `FdBags.DropCount` | vehicle/src/bullwinkle/all/FdBag.cc:884-929 | remove_fes leaves the count wrong exactly when the kernel refuses for a sink with read/write interest |
| `FdBags.RefusedWant` | vehicle/src/bullwinkle/all/FdBag.cc:807-866 | a refused set_events leaves the count wrong exactly when read/write interest comes or goes |
| `FdBags.RefusalMiscounts` | vehicle/src/bullwinkle/all/FdBag.cc:807-929 | an input for both: a lone sink that waits for reading, and a refused removal or change to no interest; a refused change from reading to writing does no harm |
| `FdBags.DispatchKeepsCount` | vehicle/src/bullwinkle/all/FdBag.cc:410-511 | whatever the callbacks do, the active count is the number of attached sinks with read/write interest and no attached sink is closed, while the kernel agrees |
| `FdBags.RemovedStaysSilent` | vehicle/src/bullwinkle/all/FdBag.cc:436-446 | a sink removed by a callback fires nothing later in the dispatch unless it is attached again |
| `FdBags.UndisturbedFires` | vehicle/src/bullwinkle/all/FdBag.cc:447-492 | an attached sink that no earlier callback removes is dispatched in its turn, with hang-up and error events filled in |
| `FdBags.FiredBits` | vehicle/src/bullwinkle/all/FdBag.cc:450-475 | an attached sink gets its ready events, reading for a hang-up or an error and writing for an error if it is armed for them, all within the mask |
| `FdBags.LogBits` | vehicle/src/bullwinkle/all/FdBag.cc:450-475 | every delivery of a dispatch fires those events, and none if its sink has been removed by then |
| `FdBags.DispatchIsScript` | vehicle/src/bullwinkle/all/FdBag.cc:410-511 | a dispatch is the run of the callbacks that fire, in order, with a close after each that does not keep its sink |
| `FdBags.AttachEffect` | vehicle/src/bullwinkle/all/FdBag.cc:189-251 | attach takes an open, unattached sink while there is room and arms it; a kernel error leaves it attached but uncounted |
| `FdBags.LeaveEffect` | vehicle/src/bullwinkle/all/FdBag.cc:884-929 | detach and close remove an attached sink unless the kernel refuses, and a refusal leaves it attached but uncounted |
| `FdBags.SetEventsEffect` | vehicle/src/bullwinkle/all/FdBag.cc:807-866 | set_events changes interest, mask and count of that sink only, and a refusal leaves the count as it was |
| `FdBags.CountIsNumber` | vehicle/src/bullwinkle/all/FdBag.cc:479-491 | the counters are the numbers of deliveries with the event |
| `FdBags.FdBag.WouldBlock` | vehicle/src/bullwinkle/all/FdBag.cc:373-381 | an endless select is refused exactly when no attached sink waits for reading or writing |
| `FdBags.FdBag.UpdateEpoll` | vehicle/src/bullwinkle/all/FdBag.cc:807-866 | mask, count and answer are those of the reference set |
| `FdBags.FdBag.Attach` | vehicle/src/bullwinkle/all/FdBag.cc:189-251 | takes the slot behind the active ones, also during dispatch, and no sink leaves the vector |
| `FdBags.FdBag.Evict` | vehicle/src/bullwinkle/all/FdBag.cc:905-928 | the removed sink loses owner and slot; during dispatch it stays in the vector |
| `FdBags.FdBag.Remove` | vehicle/src/bullwinkle/all/FdBag.cc:884-929 | removal as in the reference; what a kernel error leaves behind |
| `FdBags.FdBag.Detach` | vehicle/src/bullwinkle/all/FdBag.cc:260-273 | detaches exactly open sinks of this bag |
| `FdBags.FdBag.SetEvents` | vehicle/src/bullwinkle/all/FdBag.cc:807-866 | new interest reaches the kernel and the count only for attached sinks |
| `FdBags.FdBag.Close` | vehicle/src/bullwinkle/all/FdBag.cc:884-929 | closing takes an attached sink out of the bag |
| `FdBags.FdBag.RunScript` | vehicle/src/bullwinkle/all/FdBag.cc:480-497 | any finite script of operations inside a callback keeps the slots right and every sink of the vector held |
| `FdBags.FdBag.DispatchOne` | vehicle/src/bullwinkle/all/FdBag.cc:434-498 | needs the sink only to be still held by the vector, and gives that guarantee for all others |
| `FdBags.FdBag.DispatchAll` | vehicle/src/bullwinkle/all/FdBag.cc:434-498 | every sink of the event array is held until the loop ends; each delivery fires what the reference says |
| `FdBags.FdBag.Dispatch` | vehicle/src/bullwinkle/all/FdBag.cc:410-511 | after dispatch the vector holds exactly the attached sinks, and the counters count what was fired |
| `Signals.CalledOnceInOrder` | vehicle/src/bullwinkle/all/Signal.h:1400-1443 | an emission calls each record at most once, in strictly increasing id order |
| `Signals.GoneIsNotCalled` | vehicle/src/bullwinkle/all/Signal.h:1425-1433 | a record that was removed, cleared or invalidated is not called any more |
| `Signals.SurvivorsWereCalled` | vehicle/src/bullwinkle/all/Signal.h:1415-1436 | every record connected when the emission ends was called by it, including those connected on the way |
| `Signals.EmissionIsScripts` | vehicle/src/bullwinkle/all/Signal.h:1399-1443 | an emission is the run of what the called functions do, in order, and each was connected when its turn came |
| `Signals.PerformEffect` | vehicle/src/bullwinkle/all/Signal.h:1488-1519 | connecting adds one record, disconnecting removes that one, clearing removes all, destroying a handler removes exactly its functions, and a nested emission does nothing |
| `Signals.TidiedLists` | vehicle/src/bullwinkle/all/Signal.h:1453-1478 | erasing the dead records has no functional effect |
| `Signals.EmissionCalls` | vehicle/src/bullwinkle/all/Signal.h:1415-1436 | the next live record of the list is the connected record with the smallest id not reached yet |
| `Signals.Signal.Connect` | vehicle/src/bullwinkle/all/Signal.h:1488-1499 | a slot whose function is gone is refused; otherwise it gets the next id at the end |
| `Signals.Signal.Remove` | vehicle/src/bullwinkle/all/Signal.h:1506-1519 | the id is disconnected; during an emission the list keeps its records |
| `Signals.Signal.Clear` | vehicle/src/bullwinkle/all/Signal.h:1358-1367 | everything is disconnected; during an emission the list keeps its records |
| `Signals.Signal.IsValid` | vehicle/src/bullwinkle/all/Signal.h:1529-1540 | tells exactly whether the id is connected |
| `Signals.Signal.Empty` | vehicle/src/bullwinkle/all/Signal.h:1374-1385 | tells exactly whether nothing is connected |
| `Signals.Signal.Destroy` | vehicle/src/bullwinkle/all/Signal.h:194-205 | destroying a handler disconnects all its functions |
| `Signals.Signal.ReconcileRemoval` | vehicle/src/bullwinkle/all/Signal.h:1453-1478 | does nothing during an emission and only erases dead records outside |
| `Signals.Signal.Visit` | vehicle/src/bullwinkle/all/Signal.h:1415-1436 | a record is called exactly when it is connected by then; otherwise its removal is requested |
| `Signals.Signal.RunScript` | vehicle/src/bullwinkle/all/Signal.h:1400-1443 | whatever a callback does, the locked list only grows and the map follows the reference |
| `Signals.Signal.VisitAll` | vehicle/src/bullwinkle/all/Signal.h:1415-1436 | no record is erased while the list is locked; the calls are those of the reference emission |
| `Signals.Signal.Emit` | vehicle/src/bullwinkle/all/Signal.h:1400-1443 | the emission is that of the reference map; a nested emission does nothing; no removal request is left waiting |
| `CommandUplink.GrpcClient.Async` | GrpcClient.h:202-250 | starts, skips or fails a call; tags and counters |
| `CommandUplink.GrpcClient.Complete` | GrpcClient.h:523-560 | takes the call out exactly once |
| `CommandUplink.StartIsBalanced` | GrpcClient.h:202-250 | the counters add up with the calls in flight, and a new tag is never in use |
| `CommandUplink.GrpcPoller.Dispatch` | GrpcPoller.h:149-217 | builds a request and makes a call exactly when one is due and none is waited for; never tells the caller to come back at once |
| `CommandUplink.GrpcPoller.OnResponse` | GrpcPoller.h:477-551 | resets the waiting flag in both queue modes, and schedules the next poll even when the callback asks for one |
| `CommandUplink.GrpcPoller.PollAsap` | GrpcPoller.h:296-303 | what a forced poll resets |
| `CommandUplink.GrpcPoller.EnablePolling` | GrpcPoller.h:221-235 | enabling resets the retries and schedules a poll only if polling was disabled |
| `CommandUplink.EnablingSchedulesPoll` | GrpcPoller.h:149-235 | after enabling a disabled poller the next dispatch polls exactly when the re-enabling delay has passed; enabling an enabled one moves no poll |
| `CommandUplink.EnabledPollComes` | GrpcPoller.h:149-217 | if that dispatch comes too early, the poll is due at its time or at the rate limit, whichever is later |
| `CommandUplink.RateLimitOfRecord` | GrpcPoller.h:155-196 | the recorded success is respected by every poll but the first after enabling |
| `CommandUplink.RateLimitExactly` | GrpcPoller.h:149-235 | after a call that succeeds, the promise never to violate the rate limit fails exactly when polling was enabled again while the response was awaited and its delay ends before the limit, or a poll was forced meanwhile and the clock is past the polling period |
| `CommandUplink.ForcedPollComesTooSoon` | GrpcPoller.h:185-196 | an input: with a limit of 10 a second call comes 1 after the first |
| `CommandUplink.ReenabledPollComesTooSoon` | GrpcPoller.h:149-235 | another, without a forced poll: polling is disabled and enabled again while the response is awaited |
| `CommandUplink.CommandQueueClient.BuildRequest` | CommandQueueClient.cc:162-176 | the request, and the feedback put on record for the replay check |
| `CommandUplink.CommandQueueClient.PumpNow` | CommandQueueClient.cc:120-132 | new feedback, and a forced poll |
| `CommandUplink.CommandQueueClient.OnPumpResponse` | CommandQueueClient.cc:185-292 | emits a command exactly for an accepted response, and counts each reason for a refusal |
| `CommandUplink.CommandQueueClient.Dispatch` | CommandQueueClient.cc:140-153 | a poll is one step of the protocol, and nothing happens before the control process has been heard |
| `CommandUplink.CommandQueueClient.Complete` | GrpcClient.h:523-580 | completion, response handling and emission together are one step of the protocol |
| `CommandUplink.RunIsSingleFlight` | GrpcPoller.h:149-217 | in every run at most one call is in flight, it implies the waiting flag, the response answers the latest request, and no call is ever skipped |
| `CommandUplink.StepIsSingleFlight` | GrpcPoller.h:149-217 | each event keeps that |
| `CommandUplink.StepStaysGuarded` | CommandQueueClient.cc:228-249 | each event keeps the recorded feedback at n or above, and emits nothing at or below n |
| `CommandUplink.WedgesExactly` | GrpcPoller.h:199-206 | the poller comes to wait for nothing exactly when a poll is due and the client has no stub |
| `CommandUplink.WedgedForEver` | GrpcPoller.h:149-154 | from then on nothing is asked and nothing is emitted |
| `CommandUplink.LostCallSilences` | GrpcClient.h:492-516 | the same after the worker drops the completion of the call in flight |
| `CommandUplink.ReplayExactly` | CommandQueueClient.cc:228-249 | in signed mode command n can be emitted exactly when no command was accepted yet or the latest request does not cover n |
| `CommandUplink.UnissuedMayComeBack` | CommandQueueClient.cc:162-176 | the request reports a command that could not be issued, but the replay check does not count it |
| `CommandUplink.NoReplay` | CommandQueueClient.cc:228-249 | once a request carrying feedback of at least n was built, no command n or lower is emitted, whatever follows |
| `CommandUplink.EmittedExactly` | CommandQueueClient.cc:204-290 | a command is emitted exactly when a call in flight completes with a response that carries it correctly: in signed mode both layers unwrapped, number, ephemeral ids and target right, newer than the latest request, decodable |
| `CommandUplink.RefusalIsCounted` | CommandQueueClient.cc:215-283 | each refusal raises the counter of the first check that fails, and no other |
| `CommandUplink.ResponseIsRecorded` | CommandQueueClient.cc:196-290 | what else a response changes: last number seen, commands counted, feedback from inside the call, and the number of a command that was not issued |
| `CommandUplink.FeedbackIsAsked` | CommandQueueClient.cc:119-180 | feedback forces a poll that carries it, as soon as the rate limit allows |
| `CommandUplink.DisabledIsSilent` | GrpcPoller.h:149-240 | while polling or the client is disabled nothing is asked |
| `CommandUplink.EmissionsIncrease` | CommandQueueClient.cc:185-292 | emitted commands strictly increase, hence none twice, if each request waits for the feedback on the last command |
| `CommandUplink.BackoffFits` | GrpcPoller.h:520-545 | the back-off starts at its minimum, never shrinks, stays below its maximum and never overflows |
| `CommandUplink.BackoffDoubles` | GrpcPoller.h:520-545 | the back-off doubles with each failure until it would pass its maximum |
| `CommandUplink.PollAfterResponse` | GrpcPoller.h:477-560 | after a response the poller is free and polls when its wait and the rate limit are over |
| `CommandUplink.ZeroPeriodWaits` | GrpcPoller.h:477-560 | with a period of zero a success is followed by no poll until one is forced |
| `CommandUplink.AsapSurvivesResponse` | GrpcPoller.h:296-303 | a poll forced while a response is awaited is not lost: when the next call is due afterwards |
| `MultiSet.GetThenSet` | SlateCommandInterface.cc:533-748 | storing back what get returned is an identity for each of the 12 types if the value is finite, and refused if it is not |
| `MultiSet.StoredIsCommanded` | SlateCommandInterface.cc:43-70 | what a command stores fits the type and reads back as commanded, up to the bits of a negative number for a 32-bit unsigned element |
| `MultiSet.KindRanges` | SlateCommandInterface.cc:40-70 | the bounds of each integer type are those of its size in two's complement |
| `MultiSet.GotExactly` | SlateCommandInterface.cc:663-745 | a read yields an integer as the INT64 with the same bits and a float or double as a double, and refuses the other type |
| `MultiSet.StoredExactly` | SlateCommandInterface.cc:533-605 | which integers each type accepts, and that a negative number for an unsigned type is stored with the same bits |
| `MultiSet.StoredDoubles` | SlateCommandInterface.cc:617-655 | doubles and floats are stored exactly when finite, floats after narrowing |
| `MultiSet.AppliesExactly` | SlateCommandInterface.cc:389-470 | a command is carried out exactly when its element is known and writable, the value fits its type and the validator accepts what is stored |
| `MultiSet.EverythingIsLicensed` | SlateCommandInterface.cc:389-530 | neither the first pass nor the rollback changes a read-only element or stores what a validator rejects |
| `MultiSet.SlateCommandInterface.SetInt` | SlateCommandInterface.cc:533-612 | bounds, wrap-around and validator for the ten integer types |
| `MultiSet.SlateCommandInterface.SetDouble` | SlateCommandInterface.cc:615-653 | non-finite values are refused, after narrowing for floats |
| `MultiSet.SlateCommandInterface.Set` | SlateCommandInterface.h:129-158 | the rollback path: unlike the first pass it refuses static elements |
| `MultiSet.AfterAt` | SlateCommandInterface.cc:403-460 | after the first pass each target holds the value of the last command for it, and nothing else changed |
| `MultiSet.RecordRestores` | SlateCommandInterface.cc:403-436 | rolling one command back restores its target if the old value is finite and the validator takes it, and is refused otherwise |
| `MultiSet.RestoresExactly` | SlateCommandInterface.cc:462-523 | the forward rollback restores the slate exactly when, for each repeated target, the last command but one gives the initial value |
| `MultiSet.ReportsExactly` | SlateCommandInterface.cc:493-523 | a failed multi-set returns true if and only if no applied target is static and each held a finite value that its validator accepts |
| `MultiSet.AllOrNothingExactly` | SlateCommandInterface.cc:389-523 | a failed multi-set returns true and leaves the slate as it was if and only if that holds and no repeated target shows |
| `MultiSet.EchoIsNotRestored` | SlateCommandInterface.cc:493-523 | an input: 1, then 2 for one element, then an unknown one, leave 1 where 0 was |
| `MultiSet.StaticStaysChanged` | SlateCommandInterface.cc:493-523 | an input: a static element set before the failure stays changed |
| `MultiSet.StaticIsNotRestored` | SlateCommandInterface.cc:493-523 | a static target that was changed before the failure stays changed |
| `MultiSet.AllOrNothing` | SlateCommandInterface.cc:389-523 | with distinct, non-static targets holding finite, accepted values a failure leaves the slate as it was and returns true |
| `MultiSet.SlateCommandInterface.FirstPass` | SlateCommandInterface.cc:389-460 | the recorded values, and where the first pass stops |
| `MultiSet.SlateCommandInterface.Try` | SlateCommandInterface.cc:403-446 | one command of the first pass: the old value is recorded in the command before the new one is set |
| `MultiSet.SlateCommandInterface.RollbackPass` | SlateCommandInterface.cc:493-523 | the forward rollback and its report |
| `MultiSet.SlateCommandInterface.SetMulti` | SlateCommandInterface.cc:389-523 | success, return value and slate of every call; on failure, exactly when it is all or nothing, and what a caller can check beforehand to be sure |

## Left out

- SpinLock.Run: memory orderings (one sequentially consistent word), and the 52-bit wrap of a priority: priorities are unbounded.
- FastMap.FastMap32.Insert: requires a key other than the sentinel and a home whose lanes stay inside the bucket. That admits homes such as 1, 2 and 3, for which the model says what the loop computes although the source would dereference a misaligned vector pointer; only homes that are multiples of 4 are safe there. SIMD compares are modelled as the first matching lane, and `fast_map_common_2.h`, which repeats the same code, has no model of its own.
- RadixSort.SortInternal: alignment and `__restrict` are not modelled; past 2^32 bytes only the bytes from 2^32 on are described.
- SlateCombiner.SlateCombiner.ValidateAndCombine: requires that no output is configured twice or read as an input; NaN values, enum registration and the median of `median3` (taken to be the middle value) are assumptions.
- ShardDigest.Digest: the 64-bit fold of the digest in `Slate.cc`, after which the injectivity no longer holds.
- SlateLayouts.SlateLayout.AllocateElement: bit packing of element ids, path allocation, `finalize` and the lookups by path; after an overflow that breaks the shard nothing is claimed about the layout.
- FdBags.FdBag.UpdateEpoll: which of the three operations epoll_ctl is called with.
- FdBags.FdBag.Attach: the stand-in for descriptors that cannot be polled, `fd_bound`, and sinks that belong to several bags.
- FdBags.FdBag.Dispatch: the sort of the events (any order is allowed), waiting and time, a select from inside a callback, and the sink's own filtering of events; `FdEventSink` is not part of this model beyond the fields the bag touches.
- Signals.Signal.Emit: return values and their accumulation, the 2^64 wrap of ids, slots that are registered with a handler while it is emitted, and the destruction of the signal itself.
- CommandUplink.GrpcPoller.Dispatch: overflow of `nano_t`, update of the polling policy, and how random delays are drawn (any value is allowed).
- CommandUplink.GrpcClient.Async: channels, stubs, credentials and threads; a completion may come at any time or never, but not from inside `async`, and latency metrics are not kept.
- CommandUplink.CommandQueueClient.OnPumpResponse: signature checks and decoding are given as results; wrap of the counters is not modelled.
- MultiSet.SlateCommandInterface.SetMulti: float and double matter only through finiteness and their conversions, which are taken to be lossless when widening and to keep infinities and NaNs what they are; messages are not modelled.
- SlateBuilder, StateMachine, Server, Handle, telemetry configuration and endpoint handling: wiring, or properties much easier than the ones above.
