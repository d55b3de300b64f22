# A verified model of the node's data structures and codecs

This project models the self-contained stateful parts of a Bitcoin- and Peercoin-derived
node in Dafny 4.11 and proves what they promise. Each part keeps redundant state, or takes
a fast path, that has to agree with something simpler; the simpler thing is written down and
the agreement is proved, over every input, every run or every reachable state.

| component | modules | main results |
|---|---|---|
| address manager | AddrTables, AddrOperations, AddrTheorems, AddrEffects, AddrMan, AddrSerial, AddrRoundTrip | every run from an empty manager passes the consistency check; no one group of sources can fill the new table; what is saved loads back up to renumbering |
| coin cache stack | CoinsStack, CoinsRuns, CoinsCache | any stack of write-back caches behaves as plain maps, over every run; when a run goes through and which best block each layer reports |
| block assembly | Mempool, BlockAssembler | the selection is duplicate-free, ancestor-closed, ordered and within the limits; what is left out had no room when exactly what was left of its package was tried |
| signature cache | CuckooTable, CuckooCache | placement, uniqueness, at most one live element lost per insertion, and only after a full chain of displacements |
| script check queue | CheckQueue | over every interleaving of workers and master, a wait returns the conjunction of the checks added |
| partial merkle trees | MerkleTree, PartialMerkle, MerkleBlock | soundness of decoding arbitrary data, and the round trip through bytes |
| message framing | Framing, NetNode | messages arrive unaltered and in order, for any partial sends and any chunks, and all of them once the socket takes all |
| compact blocks | CompactBlock, BlockRebuild, PartialBlock | blocks are rebuilt, asking for exactly what is not at hand; differences of indexes read back |
| 256-bit numbers | Powers, Limbs, Shifts, LongDivision, ArithUint | limb arithmetic is arithmetic modulo the modulus; division is exact |
| difficulty targets | CompactTarget, BlockTrust | overflow flag, precision, monotonicity; a block's trust is the exact quotient |
| block index | BlockChain, ActiveChain | skip pointers find the ancestors parent walking finds; forks, tips, locators |
| Bech32 | Bech32Code, Bech32Field, Bech32Errors, Bech32, Bech32Codec | three errors within 1023 symbols, bursts of six and wrong prefixes detected, both round trips |
| Base 58 | Digits, Base58, Base58Codec | both round trips; the buffers always suffice |
| rolling Bloom filter | RollingBloom | a place is marked exactly if a key of this or the two generations before has it |

Basics and Consensus hold shared notions and limits, and Bits single bits of bytes.

Every component has two layers. Functions and lemmas over values say what the state is, what
each operation does and what follows; classes and methods with the fields, arrays and loops
of the program are proved to do what those functions say. Hash functions, the clock,
randomness, the answers of sockets and the bucket layout of hash maps are parameters: the
theorems hold for all of them. The only hypothesis on a hash is that hashing pairs of merkle
nodes does not collide.

Where the program and its documentation disagree the program is followed:

- The first displacement in the cuckoo cache takes the second of an element's positions, not the
  first (src/cuckoocache.h:430).
- The flag bits of a partial merkle tree can exceed the documented 2N-1 (src/merkleblock.h:47):
  `PartialMerkle.BitBoundFails` shows it, `PartialMerkle.BitsExactly` says when.
- Adding an address can report success although the new entry was dropped at once
  (src/addrman.cpp:285-312): `AddrTheorems.AddPresence` says exactly when, and
  `AddrTheorems.AddReportsDropped` gives an instance.
- Flushing a cache that was never told its best block makes the layer below forget its own
  (src/coins.cpp:199-208): `CoinsRuns.FlushForgetsBestBlock` shows it and
  `CoinsRuns.FlushBestBlock` says exactly when; `CoinsRuns.StepReports` and
  `CoinsRuns.MarkedRunReports` carry that to every operation and every run.
- Flushing a cache that was never told its best block onto the database stops the program
  (src/txdb.cpp:90): `CoinsRuns.UnmarkedWriteFails` shows it, `CoinsRuns.RunRefines` says exactly when.
- Spending reports failure only for an unknown coin; a coin spent before but still cached counts
  as known (src/coins.cpp:98-112): `CoinsStack.SpendCoinKeeps` says exactly when, and
  `CoinsStack.SpentTwice` gives an instance.
- Read back, differences of block transaction indexes can fall below an index already read
  (src/blockencodings.h:55-61): `CompactBlock.FallBackExample` shows it, `CompactBlock.IndexesRise`
  says exactly when they do not and `CompactBlock.IndexesFallBack` exactly when they do.
- The rolling Bloom filter remembers two full generations and the current one
  (src/bloom.h:113-114): `RollingBloom.RollingBloomFilter.Contains`.

## Model

| member | source | states |
|---|---|---|
| AddrTables.TriedBucket | src/addrman.cpp:12-17 | A tried bucket number is below 256, whatever the hash. |
| AddrTables.NewBucket | src/addrman.cpp:19-25 | A new bucket number is below 1024, whatever the hash. |
| AddrTables.Position | src/addrman.cpp:27-31 | A position within a bucket is below 64. |
| AddrTables.CreateKeeps | src/addrman.cpp:81-91 | A created entry joins the id map, the address map and the end of the random order, and everything else the invariant says still holds with the new entry awaiting its first reference. |
| AddrTables.SwapRandomKeeps | src/addrman.cpp:93-111 | Swapping two places of the random order keeps it and the positions stored in the entries inverse to each other. |
| AddrTables.DeleteKeeps | src/addrman.cpp:113-125 | Deleting an unreferenced new entry removes it from all three indexes and counts one new entry less. |
| AddrTables.ClearNewKeeps | src/addrman.cpp:127-140 | Clearing a new slot drops one reference, deletes the entry with its last one, and keeps the invariant. |
| AddrOperations.EvictKeeps | src/addrman.cpp:160-182 | Moving the occupant of a tried slot back to its new slot keeps the invariant and removes exactly that tried slot. |
| AddrTheorems.EvictEffect | src/addrman.cpp:160-182 | The evicted entry is new again with one reference, at the slot its own source hashes to; an entry lost in the process was referenced only from that slot. |
| AddrOperations.MakeTriedKeeps | src/addrman.cpp:142-188 | Moving an entry to the tried table keeps the invariant. |
| AddrTheorems.MakeTriedEffect | src/addrman.cpp:142-188 | The entry ends in exactly the tried slot its address hashes to, with no references left, its fields kept; any entry lost was displaced by the eviction. |
| AddrOperations.BucketFound | src/addrman.cpp:219-233 | The search for a bucket holding a new entry always succeeds, so the exit for finding none is never taken. |
| AddrOperations.GoodKeeps | src/addrman.cpp:190-240 | Marking an address as good keeps the invariant and leaves a known address tried. |
| AddrTheorems.GoodEffect | src/addrman.cpp:190-240 | An unknown address changes only the time of the last success; a known one is tried afterwards, in its slot, with the time recorded; a tried one moves nothing; only displaced entries are lost. |
| AddrOperations.SettleKeeps | src/addrman.cpp:291-312 | Giving an entry a reference at its slot, clearing the occupant or giving up, keeps the invariant. |
| AddrOperations.AddKeeps | src/addrman.cpp:242-313 | Adding an address keeps the invariant, for every clock, penalty and random draw. |
| AddrTheorems.AddPresence | src/addrman.cpp:242-313 | Success is reported exactly for a routable unknown address; the new entry exists afterwards exactly when its slot was free or its occupant could be cleared, then with one reference there; otherwise nothing changed but the number of the next entry. |
| AddrTheorems.AddDrops | src/addrman.cpp:285-312 | A new address whose slot is not free for it leaves every table as it was; only an entry number is used up. |
| AddrTheorems.AddReportsDropped | src/addrman.cpp:285-312 | Two addresses added at the same moment to an empty manager, both with success reported, of which the second is unknown afterwards. |
| AddrOperations.UpdateKeeps | src/addrman.cpp:315-335 | Recording a connection or services keeps the invariant; recording an attempt does exactly when the address is unknown or the time is not before the epoch. |
| AddrOperations.GetAddrSound | src/addrman.cpp:462-481 | The addresses shared are distinct, not terrible, at most the limit, all of them if fewer than the limit; the random order is only permuted. |
| AddrOperations.GetAddrShare | src/addrman.cpp:464-480 | At most 2500 addresses are shared and at most 23 in a hundred of those known; if one more would fit, every address worth sharing is. |
| AddrOperations.PickedExactly | src/addrman.cpp:469-480 | After any number of draws exactly the shareable addresses among those drawn are picked. |
| AddrOperations.StepKeeps | src/addrman.cpp:81-519 | Every operation keeps the invariant. |
| AddrOperations.Run | src/addrman.cpp:81-519 | Every sequence of operations keeps the invariant. |
| AddrTheorems.ConsistentPasses | src/addrman.cpp:385-459 | Of tables that meet the invariant the consistency check faults exactly those with a null key, and nothing else. |
| AddrEffects.AddKnownEffect | src/addrman.cpp:256-312 | Hearing of a known address again: its services become the union; its time becomes the announced one less the penalty, at least zero, exactly if that is newer by more than the interval and the penalty; it gains one reference, at the slot for this source, exactly if it is untried, below eight, older than the announcement, drawn, and the slot is empty or held by another, terrible entry; only that one can lose a reference or be lost; all else is kept. |
| AddrEffects.AddNewEffect | src/addrman.cpp:284-312 | An unknown address that finds a slot has a fresh entry with the penalised time, its source and one reference there; only the occupant can lose a reference or be lost. |
| AddrEffects.SettleTakes | src/addrman.cpp:303-306 | Taking a slot adds one reference and takes one from the occupant, which is deleted with its last. |
| AddrEffects.EvictExactly | src/addrman.cpp:160-182 | The evicted entry has exactly one reference, at the slot of its own source; only the occupant of that slot loses one; all else is kept. |
| AddrEffects.MakeTriedExactly | src/addrman.cpp:142-188 | The entry loses all its references and fills its tried slot; an entry in the way is evicted; all else is kept. |
| AddrEffects.GoodExactly | src/addrman.cpp:190-240 | A success sets both times, clears the failures, and moves an untried address to the tried table as described; an unknown address changes only the time of the last success. |
| AddrEffects.WorthKeeping | src/addrman.cpp:33-51 | An entry is not terrible exactly if tried within a minute, or seen within thirty days and not ten minutes ahead, with fewer than three failures if it never succeeded and fewer than ten unless it did within a week. |
| AddrEffects.FailureCountsOnce | src/addrman.cpp:315-335 | Of any series of attempts since the last success of any address, one failure counts; the last time is kept and nothing else changes. |
| AddrEffects.ConnectedEffect | src/addrman.cpp:483-501 | The time shown is at most twenty minutes behind the connection, and moves only if it was more. |
| AddrEffects.SetServicesEffect | src/addrman.cpp:503-519 | The services of a known address are replaced, and only those. |
| AddrEffects.NewBucketReached | src/addrman.cpp:19-25 | Addresses heard of from one group of sources go to one of 64 buckets of that group. |
| AddrEffects.TriedBucketReached | src/addrman.cpp:12-17 | Addresses of one group go to one of 8 buckets of that group. |
| AddrEffects.TriedGroupConfined | src/addrman.h:127-131 | In consistent tables the tried addresses of one group are within its 8 buckets. |
| AddrEffects.OneGroupCannotFill | src/addrman.h:112-123 | In every run from an empty manager whose addresses all come from one group of sources, evictions included, the new slots filled are within 64 of the 1024 buckets. |
| AddrOperations.RunKey | src/addrman.cpp:455-456 | No run of operations changes the key. |
| AddrTheorems.EveryRunPasses | src/addrman.cpp:385-459 | In every run from an empty manager, with successes dated after the epoch and attempts not before it, the consistency check passes exactly when the key is not null. |
| AddrTheorems.RandomSize | src/addrman.cpp:390-391 | The random order has as many entries as are tried and new together. |
| AddrTheorems.OneTriedSlot | src/addrman.cpp:424-436 | A tried entry fills exactly one tried slot. |
| AddrMan.CAddrMan.constructor | src/addrman.h:456-481 | A fresh manager is the empty one. |
| AddrMan.CAddrMan.Create | src/addrman.cpp:81-91 | The fields change as the value-level step says. |
| AddrMan.CAddrMan.SwapRandom | src/addrman.cpp:93-111 | The fields change as the value-level step says; both positions are in range. |
| AddrMan.CAddrMan.Delete | src/addrman.cpp:113-125 | The fields change as the value-level step says; no assertion fails. |
| AddrMan.CAddrMan.ClearNew | src/addrman.cpp:127-140 | The fields change as the value-level step says; no assertion fails. |
| AddrMan.CAddrMan.MakeTried | src/addrman.cpp:142-188 | The fields change as the value-level step says; no assertion fails. |
| AddrMan.CAddrMan.Find | src/addrman.cpp:68-79 | An address is found exactly when the address map has it. |
| AddrMan.CAddrMan.FindNewBucket | src/addrman.cpp:219-228 | Scanning the buckets from a random one on finds one that holds the entry. |
| AddrMan.CAddrMan.Good | src/addrman.cpp:190-240 | The fields change as the value-level step says. |
| AddrMan.CAddrMan.Add | src/addrman.cpp:242-313 | The fields and the result are those of the value-level step. |
| AddrMan.CAddrMan.Attempt | src/addrman.cpp:315-335 | The fields change as the value-level step says. |
| AddrMan.CAddrMan.Connected | src/addrman.cpp:483-501 | The fields change as the value-level step says. |
| AddrMan.CAddrMan.SetServices | src/addrman.cpp:503-519 | The fields change as the value-level step says. |
| AddrMan.CAddrMan.GetAddr | src/addrman.cpp:462-481 | The addresses and the permuted order are those of the value-level step. |
| AddrMan.CAddrMan.Serialize | src/addrman.h:300-348 | The stream written is the saved form of the tables. |
| AddrMan.CAddrMan.Unserialize | src/addrman.h:350-454 | A stream is refused or loaded exactly as the value-level loading does. |
| AddrMan.CAddrMan.Clear | src/addrman.h:456-481 | Clearing gives the empty tables. |
| AddrSerial.IdsExact | src/addrman.h:314-334 | The entries written are exactly the referenced new ones and the tried ones, each once, in id order. |
| AddrRoundTrip.CountsFit | src/addrman.h:371-377 | The counters of a manager meeting the invariant are within the limits a loader accepts. |
| AddrRoundTrip.LoadSaved | src/addrman.h:300-454 | Loading what was saved from any manager meeting the invariant consumes the whole stream and gives the same manager under new ids: the same persistent fields, the same address in every slot, the same reference counts and counters, nothing lost or pruned. |
| AddrRoundTrip.ReloadedConsistent | src/addrman.h:350-454 | The loaded manager meets the invariant again. |
| CoinsStack.GetCoinKeeps | src/coins.cpp:57-64 | A lookup answers as the one plain map the stack stands for, and leaves that map unchanged. |
| CoinsStack.FetchKeeps | src/coins.cpp:40-55 | Fetching caches exactly the coins known below and changes no view, at any depth. |
| CoinsStack.AddCoinExactly | src/coins.cpp:66-85 | When adding does not throw the visible map gains the coin; the flags stay right exactly when an overwrite was announced, the entry was cached, or nothing unspent is below. |
| CoinsStack.AddCoinKeeps | src/coins.cpp:66-85 | Adding with the overwrite flag honoured never throws, keeps the flags right and adds the coin to the view. |
| CoinsStack.SpendCoinKeeps | src/coins.cpp:98-112 | Spending removes the coin from the view, returns it, and keeps the flags right; it reports success exactly when the cache has an entry or the layer below shows the coin. |
| CoinsStack.SpentTwice | src/coins.cpp:98-112 | A coin spent twice through one cache, the second time with success reported and no coin moved out. |
| CoinsStack.UncacheKeeps | src/coins.cpp:210-217 | Exactly an unmodified entry is forgotten, no other, and nothing visible changes. |
| CoinsStack.AddSpend | src/coins.cpp:98-112 | A coin added where there was none and spent leaves the cache as it was. |
| CoinsStack.AddFlushSpendFlush | src/coins.cpp:145-201 | A coin added, flushed, spent and flushed again leaves both caches as if it had never been. |
| CoinsStack.MergePoint | src/coins.cpp:145-201 | What merging a child entry does at one outpoint. |
| CoinsStack.MergeKeeps | src/coins.cpp:145-201 | Merging the entries of a coherent child never throws, keeps the flags right and shows what the child showed. |
| CoinsStack.WrittenKeeps | src/txdb.cpp:84-133 | Writing entries to the database shows what the cache showed. |
| CoinsStack.FlushKeeps | src/coins.cpp:203-208 | A flush leaves the visible map unchanged, makes the layer below show it too, and never throws. |
| CoinsStack.ViewUnspent | src/coins.h:128-145 | A view never shows a spent coin. |
| CoinsRuns.StepRefines | src/coins.cpp:40-217 | Looking, forgetting, asking for the best block and flushing at any layer, and adding, spending, setting the best block, stacking and discarding at the top, are the operations on plain maps and block hashes, one of each per layer; none throws, and exactly the flush of the lowest cache with a null hash fails. |
| CoinsRuns.InnerRefines | src/coins.cpp:40-217 | An operation below the top refines the one on plain maps and hashes and keeps what every layer above shows. |
| CoinsRuns.RunRefines | src/coins.cpp:40-217 | A run never throws, and goes through exactly when, on the block hashes alone, no null hash is written to the database; then each layer shows one plain map from outpoints to coins and holds one plain hash. |
| CoinsRuns.UnmarkedWriteFails | src/txdb.cpp:90-90 | Stacking a cache on a database and flushing it at once fails. |
| CoinsRuns.AskedKeeps | src/coins.cpp:135-139 | Asking for the best block fills in the null hashes it passes, and changes no view. |
| CoinsRuns.StepReports | src/coins.cpp:135-143 | After an operation every layer reports the best block it should, exactly unless a cache without a hash is flushed onto one whose report differs from the report below it. |
| CoinsRuns.MarkedRunReports | src/coins.cpp:135-208 | When only caches with a hash are flushed a run goes through, and every layer shows the plain map and reports the block that plain reports, passed down by flushes, say. |
| CoinsRuns.AddCoinsKeeps | src/coins.cpp:87-96 | Adding all outputs of a transaction gives the view with them; with checking it needs no precondition. |
| CoinsRuns.FlushBestBlock | src/coins.cpp:135-143 | A flush keeps the best block reported exactly when the cache was told one, or the layer below had none of its own or the same as the layers under it. |
| CoinsRuns.FlushForgetsBestBlock | src/coins.cpp:199-208 | A concrete stack whose reported best block changes by a flush. |
| CoinsCache.UsageSet | src/coins.cpp:36-38 | The memory accounted changes by the difference of the two entries. |
| CoinsCache.UsageRemove | src/coins.cpp:36-38 | The memory accounted drops by the entry removed. |
| CoinsCache.CoinsView.OfDatabase | src/txdb.cpp:57-59 | A database view shows its coins. |
| CoinsCache.CoinsView.OnTopOf | src/coins.cpp:34-34 | A new cache is empty and accounts no memory. |
| CoinsCache.CoinsView.FetchCoin | src/coins.cpp:40-55 | The object changes as the value-level step says, with exact memory accounting. |
| CoinsCache.CoinsView.GetCoin | src/coins.cpp:57-64 | Answer and object are those of the value-level step. |
| CoinsCache.CoinsView.AccessCoin | src/coins.cpp:116-123 | The coin shown, or the empty one. |
| CoinsCache.CoinsView.HaveCoin | src/coins.cpp:125-128 | Whether the view has the coin unspent. |
| CoinsCache.CoinsView.AddCoin | src/coins.cpp:66-85 | Throws exactly when the value-level step does, then leaving only the memory counter short; otherwise as that step, with exact accounting. |
| CoinsCache.CoinsView.SpendCoin | src/coins.cpp:98-112 | Result, coin and object are those of the value-level step, with exact accounting. |
| CoinsCache.CoinsView.Uncache | src/coins.cpp:210-217 | The object changes as the value-level step says, with exact accounting. |
| CoinsCache.CoinsView.BatchWriteCache | src/coins.cpp:145-201 | Throws exactly when a fresh entry meets an unspent one; otherwise merges as the value-level step says, with exact accounting. |
| CoinsCache.CoinsView.BatchWriteDatabase | src/txdb.cpp:84-133 | The database becomes the coins written. |
| CoinsCache.CoinsView.Flush | src/coins.cpp:203-208 | Throws exactly when the cache below meets a misapplied flag, and is the value-level step otherwise; on a coherent stack it never throws and leaves the view unchanged. |
| CoinsCache.CoinsView.GetBestBlock | src/coins.cpp:135-139 | Reports the best block of the first layer told one; every null hash passed on the way is filled in, and nothing else changes. |
| CoinsCache.CoinsView.SetBestBlock | src/coins.cpp:141-143 | Only the hash changes, to the one given. |
| CoinsCache.CoinsView.AddCoins | src/coins.cpp:87-96 | Throws exactly when the value-level step does, and is that step otherwise. |
| Mempool.AncestorCount | src/miner.h:81-92 | An ancestor has fewer ancestors than its descendant, the fact ordering by ancestor count rests on. |
| BlockAssembler.BoundStep | src/miner.h:113-125 | Subtracting an included ancestor from a modified entry keeps it an upper bound of what is not yet included. |
| BlockAssembler.BoundFresh | src/miner.cpp:276-281 | A modified entry made with only the newest ancestor subtracted is an upper bound still. |
| BlockAssembler.UpdatePackagesForAdded | src/miner.cpp:265-289 | Afterwards every entry bounds what is not included, and exactly the former entries and the dependants of the added transactions have one; entries that were exact stay exact. |
| BlockAssembler.UpdateDescendants | src/miner.cpp:269-286 | Exactly the dependants that are not being added have their totals reduced, from the adjusted ones if there are any and from the pool's otherwise, and are counted. |
| BlockAssembler.ExactStep | src/miner.cpp:264-289 | Adjusting all dependants of one more transaction keeps the totals exactly those of what is left of each package, but for transactions turned away before. |
| BlockAssembler.Assembler.Round | src/miner.cpp:350-444 | One candidate is added or turned away; those turned away as too large since the last success are all different. |
| BlockAssembler.SortForBlock | src/miner.cpp:305-313 | The package without duplicates, ordered by ancestor count. |
| BlockAssembler.SortedOrdered | src/miner.cpp:305-313 | Ordered so, every transaction comes after its ancestors in the package. |
| BlockAssembler.PackageFits | src/miner.cpp:220-227 | The weight and operations of the missing ancestors are at most four times the size and the operations compared with the limits. |
| BlockAssembler.StartBound | src/miner.h:40-47 | The totals a transaction starts with bound what is not included. |
| BlockAssembler.Assembler.constructor | src/miner.cpp:70-81 | The block starts empty within the limits, with room reserved for the coinbase. |
| BlockAssembler.Assembler.OnlyUnconfirmed | src/miner.cpp:209-218 | Exactly the transactions already in the block are removed. |
| BlockAssembler.Assembler.TestPackageTransactions | src/miner.cpp:233-245 | Holds exactly when every transaction of the package is final. |
| BlockAssembler.Assembler.AddToBlock | src/miner.cpp:247-263 | One transaction whose ancestors are in the block is appended and accounted. |
| BlockAssembler.Assembler.AddPackage | src/miner.cpp:429-437 | Exactly the missing ancestors and the transaction are appended, in a valid order, and accounted exactly. |
| BlockAssembler.Assembler.Consider | src/miner.cpp:384-442 | A candidate is added exactly when its totals fit and its package is final; otherwise nothing changes and the reason holds. |
| BlockAssembler.Assembler.Candidate | src/miner.cpp:353-388 | The candidate evaluated is not in the block and its totals bound its package. |
| BlockAssembler.Assembler.AddPackageTxs | src/miner.cpp:325-444 | Terminates for every pool; the selection extends the block, free of duplicates, closed under ancestors, every transaction after its parents, weight and operations exact and within the limits; unless it gives up, every transaction left out was turned away at some stage of the block when exactly what was left of its package did not fit or was not final, and its whole package does not fit still; it gives up only within 4000 of the limit and with more than 1000 different transactions too large in a row. |
| CuckooTable.EpochCheckKeeps | src/cuckoocache.h:289-321 | After the check there is room for one more recent entry within the epoch size and its slack; elements stay. |
| CuckooTable.AgeKeepsRecent | src/cuckoocache.h:305-311 | Ageing leaves exactly the recent elements alive and none recent. |
| CuckooTable.CountIsSize | src/cuckoocache.h:295-300 | The entries counted are the recent ones. |
| CuckooTable.DisplaceKeeps | src/cuckoocache.h:406-439 | Displacing for any depth keeps every element at one of its own positions and in one slot; the live elements are those before and the new one, less the one dropped. |
| CuckooTable.EpochCheckExactly | src/cuckoocache.h:289-321 | Nothing is aged while fewer than an epoch of entries are recent or before the scan is due; otherwise exactly the recent elements stay alive. The next scan is due when the recent ones could make up an epoch, after a sixteenth of an epoch at least. |
| CuckooTable.DropsAtDepth | src/cuckoocache.h:406-439 | An element is dropped only at the end of a chain as long as the depth limit, each of whose elements found all eight positions taken. |
| CuckooTable.FreePlaces | src/cuckoocache.h:408-415 | With a position free the element is put there, no other slot changes and nothing is dropped. |
| CuckooTable.NextPosition | src/cuckoocache.h:430-430 | The next position is the one after the one an element came from, different from it if its positions are, and the second for a new element. |
| CuckooTable.DisplaceEpochs | src/cuckoocache.h:406-439 | Displaced elements keep their epochs. |
| CuckooTable.InsertKeeps | src/cuckoocache.h:392-440 | An insertion keeps the invariant; of the elements that outlive the epoch check and the new one it loses at most one. |
| CuckooTable.InsertDrops | src/cuckoocache.h:392-440 | If something is dropped, all positions of the new element and of every element displaced were taken. |
| CuckooTable.InsertFinds | src/cuckoocache.h:392-440 | Unless something is dropped the new element is found and all that outlived the epoch check is alive; with one of its positions free nothing is dropped. |
| CuckooTable.InsertEpochs | src/cuckoocache.h:392-440 | After an insertion the new element is recent, and every other one exactly if it was and nothing was aged. |
| CuckooTable.InsertThenFind | src/cuckoocache.h:392-477 | On a table just set up an insertion is followed by a find. |
| CuckooTable.ContainsExactly | src/cuckoocache.h:467-477 | An element is found at its eight positions exactly when it is in the table. |
| CuckooTable.EraseKeeps | src/cuckoocache.h:467-477 | Erasing marks exactly that element as garbage; it is still found until overwritten. |
| CuckooTable.SetupValid | src/cuckoocache.h:340-353 | A table just set up meets the invariant. |
| CuckooTable.StepKeeps | src/cuckoocache.h:289-477 | Every operation keeps the invariant. |
| CuckooTable.EveryRun | src/cuckoocache.h:289-477 | In every reachable state each element is at one of its own positions and in no second slot, and recent live entries are within the epoch size and its slack. |
| CuckooCache.BitPackedFlags.constructor | src/cuckoocache.h:61-68 | All flags are set. |
| CuckooCache.BitPackedFlags.BitSet | src/cuckoocache.h:92-95 | Exactly one flag is set. |
| CuckooCache.BitPackedFlags.BitUnset | src/cuckoocache.h:103-106 | Exactly one flag is cleared. |
| CuckooCache.LocateExactly | src/cuckoocache.h:243-253 | A position is the part of the table, cut into equal parts, in which the hash falls. |
| CuckooCache.BitPackedFlags.BitIsSet | src/cuckoocache.h:113-116 | Reads the flag. |
| CuckooCache.ScaledBelow | src/cuckoocache.h:243-253 | A 32-bit hash scaled by the size is a position of the table. |
| CuckooCache.Cache.Setup | src/cuckoocache.h:340-353 | The arrays are those of the empty table. |
| CuckooCache.Cache.EpochCheck | src/cuckoocache.h:289-321 | The arrays change as the value-level step says. |
| CuckooCache.Cache.Insert | src/cuckoocache.h:392-440 | The arrays change as the value-level step says. |
| CuckooCache.Cache.Contains | src/cuckoocache.h:467-477 | Answer and flags are those of the value-level step. |
| CheckQueue.BatchShare | src/checkqueue.h:102-107 | A batch is the largest within the batch size that leaves as much for every thread and idle one, but at least one check. |
| CheckQueue.TakeKeeps | src/checkqueue.h:107-116 | Taking a batch of any allowed size moves it from the queue to the thread; no check is lost and the counters stay exact. |
| CheckQueue.AccountKeeps | src/checkqueue.h:77-83 | A finished batch lowers the number to do by its size and records a failure. |
| CheckQueue.SleepKeeps | src/checkqueue.h:88-101 | Going to sleep counts the thread as idle. |
| CheckQueue.LockKeeps | src/checkqueue.h:75-117 | Whatever a thread does on getting the lock keeps the invariant; a master that returns reports exactly the conjunction of the checks added. |
| CheckQueue.WakeKeeps | src/checkqueue.h:88-117 | So does a thread woken, rightly or spuriously. |
| CheckQueue.WorkKeeps | src/checkqueue.h:118-122 | Running a batch outside the lock judges exactly its checks. |
| CheckQueue.EnterKeeps | src/checkqueue.h:66-75 | A thread entering keeps the invariant. |
| CheckQueue.AddKeeps | src/checkqueue.h:146-158 | Adding checks, waking one or all threads or none, keeps the invariant. |
| CheckQueue.ApplyKeeps | src/checkqueue.h:66-158 | Every step keeps the invariant, and when the master returns no batch survives into the next round. |
| CheckQueue.InitialValid | src/checkqueue.h:131-131 | The initial state meets the invariant. |
| CheckQueue.Run | src/checkqueue.h:66-158 | In every interleaving the number to do is what is queued and in flight, and every wait returns exactly the conjunction of the checks added since the last. |
| CheckQueue.NoDeadlock | src/checkqueue.h:88-101 | While the master waits some thread is awake; a sleeping master implies a batch in flight. |
| CheckQueue.StepLighter | src/checkqueue.h:66-124 | Every step but entering, adding and spurious waking lowers a measure, so a round ends. |
| MerkleTree.WidthMeaning | src/merkleblock.h:66-68 | A node exists at a height exactly when its first leaf does. |
| MerkleTree.HeightCovers | src/merkleblock.cpp:121-124 | The height computed is one with a single node. |
| MerkleTree.NodesDiffer | src/merkleblock.cpp:40-58 | Over distinct transactions, different nodes of one height have different hashes. |
| PartialMerkle.ExtractSound | src/merkleblock.cpp:78-114 | Whatever the bits and hashes: a traversal that is not bad and arrives at a node's true hash reported only transactions of the block, each at its own position. |
| PartialMerkle.ExtractOrdered | src/merkleblock.cpp:78-114 | Positions are reported in ascending order within the node's leaves. |
| PartialMerkle.BuildRecovered | src/merkleblock.cpp:60-114 | Traversing what was built, followed by anything, gives the node's hash and exactly the matched leaves in order, and leaves the rest unread. |
| PartialMerkle.BuildSize | src/merkleblock.h:34-40 | An encoding has at most one hash per leaf, at most one more than matched leaves times height, and at least one bit per hash. |
| PartialMerkle.BitsExactly | src/merkleblock.h:42-48 | N hashes take 2N-1 bits and one more for every single child above a match. |
| PartialMerkle.BitBoundFails | src/merkleblock.h:47-47 | Three transactions with the last matched take two hashes and four bits. |
| MerkleBlock.DecodeSound | src/merkleblock.cpp:132-163 | For any bits and hashes, a decoding that arrives at the root of a block with the announced number of transactions reports only its transactions, each at its position, ascending. |
| PartialMerkle.ExtractSoundAnnounced | src/merkleblock.cpp:78-114 | The same whatever number of transactions is announced, over distinct ones: a child the announced tree has too many repeats its sibling, which is refused. |
| MerkleBlock.DecodeSoundAnnounced | src/merkleblock.cpp:132-163 | The same for every announced number that gives a tree of the block's height, over distinct transactions. |
| MerkleBlock.RoundTrip | src/merkleblock.h:88-105 | Built from distinct ids and any mask, packed into bytes and unpacked, the tree decodes to the block's root and exactly the matched transactions in order. |
| MerkleBlock.HashesSent | src/merkleblock.h:34-40 | At most as many hashes as transactions, and at most one more than matched times height. |
| MerkleBlock.CPartialMerkleTree.OfBlock | src/merkleblock.cpp:116-128 | The object holds the encoding of the block and mask. |
| MerkleBlock.CPartialMerkleTree.TraverseAndBuild | src/merkleblock.cpp:60-76 | Appends exactly the encoding of a node. |
| MerkleBlock.CPartialMerkleTree.TraverseAndExtract | src/merkleblock.cpp:78-114 | Result, counters, lists and the bad flag are those of the value-level traversal. |
| MerkleBlock.CPartialMerkleTree.ExtractMatches | src/merkleblock.cpp:132-163 | Root and matches are those of decoding; positions are appended to the list passed in. |
| MerkleBlock.CPartialMerkleTree.PackBits | src/merkleblock.h:100-103 | The bytes unpack to the bits and zero padding. |
| MerkleBlock.CPartialMerkleTree.Receive | src/merkleblock.h:92-98 | The bits are those of the bytes, and the bad flag is cleared. |
| Framing.HeaderSize | src/protocol.h:27-60 | A header has 24 bytes and its size field reads as the payload length. |
| Framing.FeedAppend | src/net.cpp:741-791 | How a byte stream is cut into chunks does not matter. |
| Framing.FeedHeader | src/net.cpp:820-849 | Bytes within a header only extend it; the last one opens the message or gives up on it. |
| Framing.FeedData | src/net.cpp:851-866 | Bytes within a payload only extend it; the last one completes the message. |
| Framing.FeedFrame | src/net.cpp:2806-2841 | A header and payload received between messages complete exactly that message, an empty payload included. |
| Framing.HeaderFields | src/protocol.h:27-60 | A header holds the start bytes, the command as far as it fits, read back as it was, and the checksum of the payload. |
| Framing.OversizeRefused | src/net.cpp:741-791 | A header that announces too much ends the connection, whatever follows. |
| Framing.FeedGrows | src/net.cpp:741-791 | Completed messages are never taken back and a failure is final. |
| Framing.EnqueueKeeps | src/net.cpp:2823-2833 | Queueing appends header and payload, keeps the size the total of the buffers, and the pause flag right. |
| Framing.SendsKeeps | src/net.cpp:885-935 | Whatever the socket takes moves from the queue to the wire in order; size, offset and pause flag stay right. |
| Framing.SendsExactly | src/net.cpp:885-935 | Whole buffers are sent as long as the socket takes them, and of the next one what it takes, no less and no more. |
| Framing.SendsAll | src/net.cpp:885-935 | A socket that takes everything empties the queue. |
| Framing.Drains | src/net.cpp:741-935 | From any moment on, once the socket takes all that is queued and it is delivered, every message pushed has arrived. |
| Framing.StepKeeps | src/net.cpp:741-935 | Every push, flush and delivery keeps it true that receiving all bytes under way and queued would complete exactly the messages pushed. |
| Framing.Run | src/net.cpp:741-935 | End to end, over every run: the messages completed are an unaltered prefix of those pushed, in order, all of them once all bytes have arrived; the send size is the total queued. |
| Framing.StartOk | src/net.h:613-616 | A new connection satisfies this. |
| NetNode.NetMessage.ReadHeader | src/net.cpp:820-849 | Copies as much as fits, examines a whole header, and refuses an oversized message. |
| NetNode.NetMessage.ReadData | src/net.cpp:851-866 | Copies as much as fits; the buffer never exceeds the announced size nor runs more than 256 KiB ahead, and a complete message is exactly its buffer. |
| NetNode.Node.ReceiveMsgBytes | src/net.cpp:741-791 | Receives a chunk of any size as if byte by byte; fails exactly when that does; reports whether a message was completed. |
| NetNode.Node.SocketSendData | src/net.cpp:885-935 | Fields and bytes taken are those of the value-level sending; no assertion fails. |
| NetNode.Node.PushMessage | src/net.cpp:2806-2841 | Queues the message and, if nothing was queued, sends at once as the value-level sending does. |
| CompactBlock.IndexesRoundTrip | src/blockencodings.h:38-68 | Rising 16-bit indexes written as differences read back as themselves. |
| CompactBlock.IndexesRise | src/blockencodings.h:55-61 | Reading succeeds with rising indexes exactly when the differences stay within 16 bits. |
| CompactBlock.IndexesFallBack | src/blockencodings.h:55-61 | Reading succeeds with indexes that fall back exactly when some differences end at the last 16-bit index and the rest is accepted from zero; beyond 16 bits nothing else is accepted. |
| CompactBlock.WrapSplits | src/blockencodings.h:55-61 | In that case the indexes are exact up to the wrap and then those of the rest read from zero. |
| CompactBlock.FallBackExample | src/blockencodings.h:55-61 | Two differences that are accepted and read as falling indexes. |
| CompactBlock.WriteIndexes | src/blockencodings.h:63-66 | The differences written. |
| CompactBlock.ReadIndexes | src/blockencodings.h:42-61 | The two passes read what the value-level function reads. |
| CompactBlock.PlacedFree | src/blockencodings.cpp:57-75 | With the whole transactions placed, exactly as many slots are free as there are short ids, none out of range. |
| CompactBlock.SlotMapSize | src/blockencodings.cpp:81-103 | The map of short ids has an entry per id exactly when no two are equal. |
| CompactBlock.SlotMapAt | src/blockencodings.cpp:82-86 | The i-th short id is mapped to the i-th free slot. |
| BlockRebuild.OffersSound | src/blockencodings.cpp:105-164 | Matching touches only slots of short ids, and the count kept is the number of them filled. |
| BlockRebuild.CountExact | src/blockencodings.cpp:105-164 | After both passes the count and the empty slots add up to the number of short ids. |
| BlockRebuild.OffersRight | src/blockencodings.cpp:105-164 | Without collisions every transaction put in place is the block's own. |
| BlockRebuild.FillExactly | src/blockencodings.cpp:184-199 | Filling succeeds exactly when as many transactions come as slots are empty. |
| BlockRebuild.FillRebuilds | src/blockencodings.cpp:184-199 | Right slots and the missing transactions in index order give the block. |
| BlockRebuild.Reconstructs | src/blockencodings.cpp:48-201 | Without collisions, matching and filling rebuild the block of any compact form. |
| BlockRebuild.AnnouncePlaced | src/blockencodings.cpp:18-28 | Of an announced block the receiver has the first transaction in place, and slot j+1 is for short id j. |
| CompactBlock.PlacedExactly | src/blockencodings.cpp:57-75 | Whole transactions are accepted exactly if none is null and each has a 16-bit place with no unfillable gap before it; then they are at their places and every other slot is free. |
| BlockRebuild.OffersPrefix | src/blockencodings.cpp:109-164 | Stopping early comes to offering only some, once every short id has its match. |
| BlockRebuild.MatchesExactly | src/blockencodings.cpp:105-164 | A slot holds the one pool transaction with its short id, or else the first extra one, if the pool has at most one and all with that id agree in witness hash; it may hold one otherwise only if a scan stopped with every slot filled; whatever it holds is the first at hand. |
| BlockRebuild.AnnouncedSlots | src/blockencodings.cpp:18-164 | Of an announced block, without collisions, exactly the slots stay empty whose short id none of the transactions at hand has. |
| BlockRebuild.BlockArrives | src/blockencodings.cpp:18-201 | A block announced, received without collisions, is rebuilt from the transactions at hand and the missing ones, which are exactly those not at hand if the pool holds no transaction twice. |
| PartialBlock.PartiallyDownloadedBlock.InitData | src/blockencodings.cpp:48-169 | Status and state are those of the value-level initialisation. |
| PartialBlock.PartiallyDownloadedBlock.PlacePrefilled | src/blockencodings.cpp:57-75 | The loop places or refuses as the value-level function does. |
| PartialBlock.PartiallyDownloadedBlock.MapShortIds | src/blockencodings.cpp:81-99 | The moving offset finds the i-th free slot for the i-th short id, never leaving range. |
| PartialBlock.PartiallyDownloadedBlock.MatchAll | src/blockencodings.cpp:109-164 | The loop with its early exit matches as the value-level function does. |
| PartialBlock.PartiallyDownloadedBlock.FillBlock | src/blockencodings.cpp:177-210 | Refuses exactly too few or too many transactions and gives the filled block otherwise; with too few the slots before the one they ran out at are moved away, in all other cases the object is cleared and can not be filled again. |
| Limbs.ColumnFits | src/arith_uint256.cpp:76-79 | A limb product with two limbs added fits in 64 bits. |
| Limbs.RowDone | src/arith_uint256.cpp:70-83 | One row of the product adds a limb times the operand, moved up, modulo the modulus. |
| Shifts.LeftValue | src/arith_uint256.cpp:24-38 | Limbs shifted left stand for the number times a power of two, modulo the modulus, for any shift. |
| Shifts.RightValue | src/arith_uint256.cpp:41-55 | Limbs shifted right stand for the quotient by a power of two, for any shift. |
| Shifts.TopLimbBits | src/arith_uint256.cpp:174-186 | The length in bits is fixed by the highest limb in use. |
| LongDivision.SetBit | src/arith_uint256.cpp:100-103 | Setting a bit of a quotient whose lower bits are clear adds its power of two. |
| LongDivision.Step | src/arith_uint256.cpp:99-106 | Subtracting the moved divisor or not leaves one bit fewer to find. |
| ArithUint.BaseUint.Assign | src/arith_uint256.h:94-101 | The number becomes the 64-bit one. |
| ArithUint.BaseUint.GetLow64 | src/arith_uint256.h:251-255 | The number modulo 2 to the 64. |
| ArithUint.BaseUint.IsZero | src/arith_uint256.h:67-73 | Whether the number is zero. |
| ArithUint.BaseUint.Add | src/arith_uint256.h:141-151 | The sum modulo the modulus, also when both operands are the same object. |
| ArithUint.BaseUint.Complement | src/arith_uint256.h:75-81 | The largest number minus this one. |
| ArithUint.BaseUint.Increment | src/arith_uint256.h:179-186 | One more, modulo the modulus. |
| ArithUint.BaseUint.Negate | src/arith_uint256.h:83-90 | The negative, modulo the modulus. |
| ArithUint.BaseUint.Subtract | src/arith_uint256.h:153-157 | The difference, modulo the modulus. |
| ArithUint.BaseUint.Scale | src/arith_uint256.cpp:58-67 | The product with a limb modulo the modulus, no column exceeding 64 bits. |
| ArithUint.BaseUint.Multiply | src/arith_uint256.cpp:70-83 | The product modulo the modulus, no column exceeding 64 bits, for distinct operands. |
| ArithUint.BaseUint.ShiftLeft | src/arith_uint256.cpp:24-38 | The number times a power of two, modulo the modulus. |
| ArithUint.BaseUint.ShiftRight | src/arith_uint256.cpp:41-55 | The quotient by a power of two. |
| ArithUint.BaseUint.CompareTo | src/arith_uint256.cpp:112-121 | The sign of the difference. |
| ArithUint.BaseUint.Bits | src/arith_uint256.cpp:174-186 | The length of the number in bits. |
| ArithUint.BaseUint.Divide | src/arith_uint256.cpp:86-109 | The exact floor quotient for every non-zero divisor, also the number itself; failure exactly for zero, the number then being zero. |
| CompactTarget.OverflowExactly | src/arith_uint256.cpp:219-222 | The overflow flag is set exactly when the number denoted has more than 256 bits. |
| CompactTarget.EncodeShape | src/arith_uint256.cpp:226-241 | The size and mantissa chosen are the smallest size that keeps the mantissa clear of the sign bit. |
| CompactTarget.CompactRoundTrip | src/arith_uint256.cpp:206-247 | Decoding an encoding loses less than one part in 2 to the 15, sets neither flag, and encodes to the same word again. |
| CompactTarget.CompactMonotone | src/arith_uint256.cpp:206-247 | A larger number never decodes to a smaller one. |
| CompactTarget.NegativeEncoding | src/arith_uint256.cpp:245-246 | The sign bit is set exactly for a negative number other than zero and changes nothing else. |
| BlockTrust.SetCompact | src/arith_uint256.cpp:206-224 | The number is the one denoted modulo 2 to the 256; both flags exact. |
| BlockTrust.GetCompact | src/arith_uint256.cpp:226-247 | The word is the encoding; neither assertion fails. |
| BlockTrust.InverseOf | src/chain.cpp:129-133 | The complement over the target plus one, and one, is the floor of 2 to the 256 over the target plus one; the division does not fail and nothing overflows. |
| BlockTrust.GetBlockTrust | src/chain.cpp:121-134 | For a valid target a proof-of-stake block adds exactly the floor of 2 to the 256 over the target plus one, any other block one; for an invalid target nothing. |
| BlockChain.LowestOneCleared | src/chain.cpp:70-70 | Exactly the lowest one bit is cleared. |
| BlockChain.GetSkipHeight | src/chain.cpp:73-81 | The skip height is below the height, for every height above zero. |
| BlockChain.SkipEven | src/chain.cpp:80-80 | The skip height of an even height is the height without its lowest one bit. |
| BlockChain.SkipOdd | src/chain.cpp:80-80 | The skip height of an odd height is one more than the height below it without its two lowest one bits. |
| BlockChain.BlockIndex.GetAncestor | src/chain.cpp:83-108 | Finds the ancestor parent walking finds, or none outside the range, and terminates. |
| BlockChain.BlockIndex.BuildSkip | src/chain.cpp:115-119 | The skip pointer is the ancestor at the skip height. |
| BlockChain.BlockTree.Add | src/validation.cpp:2610-2631 | A tree grown by an entry keeps all skip pointers right. |
| BlockChain.LastCommonAncestor | src/chain.cpp:155-170 | The highest block both descend from, or none; no assertion fails. |
| ActiveChain.CChain.SetTip | src/chain.cpp:11-21 | Entry i is the tip's ancestor at height i, although rewriting stops at the first entry already in place. |
| ActiveChain.StopEarly | src/chain.cpp:17-20 | Stopping at an entry in place leaves the whole chain right. |
| ActiveChain.CChain.FindFork | src/chain.cpp:51-60 | The highest block of the chain that is an ancestor, or none. |
| ActiveChain.CChain.GetLocator | src/chain.cpp:23-49 | Hashes of ancestors from the block to the root, the first twelve at consecutive heights and the others at doubling distances, at most 12 and the logarithm of the height, rounded up, of them. |
| Bech32Code.StepLinear | src/bech32.cpp:80-91 | A step of the remainder distributes over exclusive or. |
| Bech32Code.StepInjective | src/bech32.cpp:80-91 | No remainder but zero vanishes when a zero symbol is taken in. |
| Bech32Code.RemainderLinear | src/bech32.cpp:37-94 | The remainder of a difference of lists is the difference of their remainders. |
| Bech32Code.BurstDetected | src/bech32.cpp:37-94 | Lists that differ only within six consecutive places have different remainders, at any length. |
| Bech32Field.NothingFixed | src/bech32.cpp:45-48 | The field element has order 1023: no lower power of it leaves anything but zero alone. |
| Bech32Errors.RootScales | src/bech32.cpp:45-46 | The generator vanishes at an element if it does so for one leading coefficient, since everything commutes with the arithmetic of symbols. |
| Bech32Errors.GammaFacts | src/bech32.cpp:45-48 | The generator vanishes at the 24th, 25th and 26th power of the element. |
| Bech32Errors.EvalStep | src/bech32.cpp:80-91 | A step multiplies the value of the remainder at a root by the root and adds the symbol. |
| Bech32Errors.RemainderValue | src/bech32.cpp:37-94 | A list and its remainder have the same value at each of the three roots. |
| Bech32Errors.AllVanish | src/bech32.cpp:46-48 | Three field elements at places less than 1023 apart, whose sums vanish at three consecutive powers of the places, are zero. |
| Bech32Errors.ThreeErrorsDetected | src/bech32.cpp:45-48 | Lists that differ in at most three places, all within 1023 consecutive ones, have different remainders. |
| Bech32.ChecksumVerifies | src/bech32.cpp:118-139 | A created checksum verifies. |
| Bech32.ChecksumUnique | src/bech32.cpp:118-139 | Only the created checksum verifies. |
| Bech32.ThreeErrorsRejected | src/bech32.cpp:118-125 | A change in at most three symbols, within 1023 consecutive ones, makes verification fail. |
| Bech32.ExpandInjective | src/bech32.cpp:103-115 | Different human-readable parts have different expansions. |
| Bech32.HrpErrorRejected | src/bech32.cpp:103-125 | Symbols do not verify with two human-readable parts that differ in one character. |
| Bech32.HrpLettersRejected | src/bech32.cpp:103-125 | Nor with two that differ in two characters with the same high parts. |
| Bech32.BcAddress | src/test/data/base58_keys_valid.json:498-498 | One address of BIP 173, character by character, encoded and decoded. |
| Bech32.BurstRejected | src/bech32.cpp:118-125 | A change confined to six consecutive symbols makes verification fail. |
| Bech32.DecodeEncode | src/bech32.cpp:147-189 | An encoding decodes to its human-readable part and symbols. |
| Bech32.EncodeDecode | src/bech32.cpp:147-189 | Whatever decodes, in either case, is the encoding in lower case of what it decodes to. |
| Bech32.DecodeExactly | src/bech32.cpp:159-189 | A string decodes to a human-readable part and symbols if and only if it is their encoding, of at most 90 characters, all in lower or all in upper case. |
| Bech32Codec.PolyMod | src/bech32.cpp:37-94 | The loop computes the remainder. |
| Bech32Codec.ExpandHRP | src/bech32.cpp:103-115 | The buffer holds the expansion. |
| Bech32Codec.VerifyChecksum | src/bech32.cpp:118-125 | The answer is that of the value-level predicate. |
| Bech32Codec.CreateChecksum | src/bech32.cpp:128-139 | The six symbols of the value-level checksum. |
| Bech32Codec.Encode | src/bech32.cpp:147-156 | The encoding. |
| Bech32Codec.Decode | src/bech32.cpp:159-189 | Accepts and decodes exactly as the value-level function. |
| Base58.AlphabetExactly | src/base58.cpp:22-22 | The alphabet is all digits and letters but 0, I, O and l, in the order of their codes. |
| Base58.EncodeRoom | src/base58.cpp:84-84 | 138 hundredths of a digit per byte, and one, hold any number of bytes. |
| Base58.DecodeRoom | src/base58.cpp:37-37 | 733 thousandths of a byte per digit, and one, hold any number of digits. |
| Base58.DecodeEncode | src/base58.cpp:24-112 | Decoding an encoding returns the bytes. |
| Base58.DecodeWord | src/base58.cpp:27-60 | A word is decoded to the same bytes whatever spaces surround it, if it is in the alphabet, and otherwise refused. |
| Base58.DecodeAccepts | src/base58.cpp:27-60 | A text is accepted if and only if it is one word of the alphabet with nothing but spaces around it. |
| Base58.EncodeDecode | src/base58.cpp:24-112 | Encoding what a text decodes to returns the text without the spaces around it. |
| Digits.StrippedMinimal | src/base58.cpp:62-65 | A buffer without its leading zeroes holds the shortest digits of its number. |
| Base58Codec.MulAdd | src/base58.cpp:45-54 | The number in the buffer becomes itself times a base plus a digit, and no carry is left. |
| Base58Codec.Encode | src/base58.cpp:74-112 | The text is the encoding; the carry assertion never fails. |
| Base58Codec.Decode | src/base58.cpp:24-72 | Accepts and decodes exactly as the value-level function; the carry assertion never fails. |
| RollingBloom.MaskBits | src/bloom.cpp:256-264 | Two words masked lose exactly the bits of one generation. |
| RollingBloom.PutMarks | src/bloom.cpp:269-275 | Writing two bits writes the generation of one place and no other. |
| RollingBloom.RotateKeeps | src/bloom.cpp:250-265 | When a generation is full, its keys and those of the one before stay remembered. |
| RollingBloom.InsertKeeps | src/bloom.cpp:248-276 | A key whose places were marked is remembered with those before it. |
| RollingBloom.RollingBloomFilter.constructor | src/bloom.cpp:216-241 | Two generations hold at least the number of elements asked for. |
| RollingBloom.RollingBloomFilter.Reset | src/bloom.cpp:304-312 | Everything is forgotten. |
| RollingBloom.RollingBloomFilter.Wipe | src/bloom.cpp:256-264 | Exactly the places of a generation are cleared. |
| RollingBloom.RollingBloomFilter.Insert | src/bloom.cpp:248-276 | After any insertions since the reset, the keys of this generation and the two before are remembered, and no other mark is left. |
| RollingBloom.RollingBloomFilter.Contains | src/bloom.cpp:284-296 | True exactly when every place of the key is a place of a key of this generation or the two before, hence for each of those. |
| RollingBloom.MarkedExactly | src/bloom.cpp:248-296 | A place holds a generation exactly if it is a place of a key of this generation or the two before. |

## Left out

- Sockets, threads, the select loop, address and ban files, and the life of a connection: framing and the send queue are modelled, the rest is input and output.
- Start-up, user interface, remote calls, database wrappers, keys, scripts, signatures and block validation: not modelled; where they matter they are parameters.
- Choosing an address at random and the chance assigned to it (src/addrman.cpp:53-66, src/addrman.cpp:337-383): termination with probability one and floating point.
- AddrMan.CAddrMan.Unserialize: streams that announce a negative number of new entries are not covered, and for files the node did not write itself only the loading steps are stated, not the invariant.
- Wrap-around of ids, times and counters beyond 32 and 64 bits in the address manager is not modelled; times are whole numbers and penalties are not narrowed.
- AddrOperations.GoodKeeps: requires a time after the epoch, as the clock gives; an entry whose success is dated at or before it is one the consistency check rejects (src/addrman.cpp:397-398, src/addrman.cpp:413-416).
- AddrTheorems.GoodEffect: requires a time after the epoch for the same reason.
- AddrMan.CAddrMan.Good: requires a time after the epoch for the same reason.
- AddrMan.CAddrMan.Attempt: requires a time not before the epoch; AddrOperations.UpdateKeeps shows that earlier ones break the invariant.
- BlockAssembler.Assembler.TestPackageTransactions: the finality, witness and time tests of a single transaction are one predicate.
- BlockAssembler.Assembler.Candidate: fees are not modelled, so the candidate is any the two indexes offer, not the one with the best rate.
- BlockAssembler.Assembler.AddPackageTxs: fees are not modelled, so which of several candidates is tried first is left open; totals of transactions that were turned away before are upper bounds, as in the program.
- CuckooCache.Cache.Setup: the depth limit is a parameter of at least one instead of a rounded logarithm.
- CheckQueue.Run: a notification may wake any sleeping thread, and threads may wake without one; the program's scheduler does no more than that.
- PartialBlock.PartiallyDownloadedBlock.InitData: requires at most 65535 transactions, the range of the 16-bit indexes it keeps; which short ids share an overfull bucket is a parameter, and the counter of transactions from the extra pool is not modelled.
- BlockRebuild.BlockArrives: requires at most 65535 transactions for the same reason, and no overfull bucket.
- MerkleBlock.DecodeSoundAnnounced: requires a tree of the block's height, since the hash of an inner node can be announced as a transaction in a lower tree, and a pair hash without collisions.
- ArithUint.BaseUint.Multiply: requires an operand other than the number itself, as the program does.
- RollingBloom.RollingBloomFilter.constructor: the number of hash functions and words is a parameter, since the sizing formulas are floating point.
- Numbers as floating point, text or hexadecimal, and the time equivalent of chain trust (src/chain.cpp:136-151).
- Filters loaded by peers, amount compression, limited maps, alerts and synchronised checkpoints: none keeps redundant state or takes a fast path that the rest of the node relies on.
- Bech32: that four substituted symbols within 89 are detected rests on a search over all such codes (src/bech32.cpp:48-49), not on the structure of this one, and is not proved.
- Per-command byte counters, logging, time stamps of messages and the checksum test of received messages (src/net_processing.cpp:3170-3176).
