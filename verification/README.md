# Platopia node: verified models of its in-memory algorithms

Dafny models of the stateful cores of the node, with proofs of what they promise over whole runs.
Where the original changes state in place, the model is a class or a loop over an array, proved
against a function on values; the theorems are about those functions.

- **UTXO cache stack** (`Coins`, `CoinsView`): write-back caches with DIRTY and FRESH flags, stacked to
  any height over a coin database, always mean one flat map of unspent coins per layer.
- **Address manager** (`AddrMan`, `AddrManOps`, `AddrManager`, `AddrManCheck`): six linked structures
  that every run of operations keeps consistent; `AddrManEffects` says field by field what each operation
  does to them, `AddrManDisk` and `AddrManRoundTrip` save and load them without loss, and `AddrManRecords`
  says which files load as a consistent manager.
- **Block assembler** (`Packages`, `Templates`, `Selection`, `Miner`): selection by priority and by ancestor
  package, with lazily updated totals, from any memory pool; `Endings` says how each selection ends and when
  the whole pool is taken, `SigOps` and `Fees` say exactly when the signature operation limit and the kept
  fees come out right, `Scores` that the package picked is the best.
- **Verification queue** (`CheckQueue`): one master and any number of workers as atomic steps that
  interleave freely: which checks are done, who returns, sleeps or works, and with what verdict.
- **Partial Merkle trees** (`Merkle`): the encoder and decoder of the "Partial Merkle branch format" of
  BIP 37, sound against arbitrary codes and inverse on honest ones.
- **Rolling Bloom filter** (`Bloom`, `RollingBloom`): generation tags in two bit-planes, exactly which
  cells are tagged, no false negative over a sliding window.
- **Compact blocks** (`CompactBlock`, `Matches`, `BlockEncodings`): reconstruction of a block from short ids
  (BIP 152), and the differential indexes of a transaction request.
- **Block index and active chain** (`Chain`): skip list, tip, fork and locator against following
  predecessors, with a bound on the steps of the skip list.
- **256-bit arithmetic, compact targets, work and retargeting** (`Limbs`, `Shifts`, `Arith`, `Compact`,
  `Work`, `Retarget`): limb loops against the ordinary numbers, and exactly when retargeting loses bits.
- **Cuckoo cache** (`Cuckoo`, `CuckooEffects`, `CuckooCache`), **Base 58** (`Radix`, `Base58`), **message
  framing and the send queue** (`Framing`, `Net`, `SendQueue`, `Messages`).

`Basics` holds what several modules share. `dafny verify dfyconfig.toml` checks the whole project.

Hash functions are arbitrary functions of their inputs, taken as parameters; only the Merkle results
need the pair hash to be injective. Clocks, random draws, socket results, coin-age priorities, the pool's own
order and the outcome of block validation are parameters or arbitrary choices, so every result holds for
all of them.

Where the code and its comments or evident purpose disagree, the model follows the code:

- `src/merkleblock.h:49` bounds the flag bits by twice the hashes less one; nodes with a single child
  break that (`Merkle.BitBoundFails`, exact count in `Merkle.BitCount`).
- `src/blockencodings.h:60-67` is meant to read increasing indexes; the 16-bit offset starts again after
  index 65535 (`BlockEncodings.IndexesMayFall`, exact condition in `BlockEncodings.IncreasingIff`).
- `src/cuckoocache.h:394-395` says the first displacement goes to the first place; the code takes the second.
  Line 400 says the element just put in is not moved next; with repeated places it can be
  (exact condition in `CuckooEffects.NotBackIff`).
- `src/chainparams.cpp:137` calls the retargeting period two weeks; it is one day.
- `src/pow.cpp:97-106` shifts targets of more than 238 bits so that scaling them does not overflow; with the
  limit of the test network the shift back does (`Retarget.TestLosesTarget`, exact conditions in
  `Retarget.RescaledIff` and `Retarget.TestExactIff`).
- `src/miner.cpp:401-408` keeps an entry that failed from being judged again by stale totals; a later
  inclusion creates its kept totals anew from the cached ones, which still count ancestors included before
  it failed, and it can be let in against the limit of a larger block (`SigOps.LeadsBeyond`, exact
  condition in `SigOps.AlwaysWithinIff`).
- `src/miner.cpp:390` and `src/miner.h:121` deduct different fees for the same purpose
  (`Fees.FeesMayDiffer`, exact condition in `Fees.FeesExactIff`).
- `src/addrman.h:399-437` takes records as they come; an address that is read twice can leave the index wrong
  (`AddrManDisk.RepeatBreaks`, exact condition on the records in `AddrManRecords.LoadsWholeIff`).
- `src/blockencodings.cpp:86-92` keeps places in 16 bits but accepts announcements of more than 65536
  transactions (`CompactBlock.WrapReplaces`, exact conditions in `CompactBlock.PlacesKeptIff` and
  `CompactBlock.RebuiltIff`); with 65536 of them prefilled the search for a free slot does not end
  (`CompactBlock.WalkEndsIff`).
- `src/pow.cpp:103` multiplies a 256-bit number by a 64-bit span; of the two overloads it is the one for
  32-bit words that is called, which the clamped span fits on every network.

## Model

| member | source | states |
|---|---|---|
| Coins.RunRefines | src/coins.cpp:64-262 | Over any stack of caches on a database, every run of reads and flushes on any layer and additions and spends on top gives, call by call, the answers of plain maps, one per layer, and no call throws; additions without overwrite are only made where no unspent coin exists |
| Coins.StepRefines | src/coins.cpp:64-262 | One such call on layer k changes the meaning of exactly the layers a plain map would change, and keeps every flag honest |
| Coins.TopStepRefines | src/coins.cpp:88-153 | A call on the top layer answers and acts like the plain map of that layer and cannot throw |
| Coins.LowerRefines | src/coins.cpp:186-262 | A call on a lower layer leaves the meaning of every layer above it alone |
| Coins.FlatLookup | src/coins.cpp:64-95 | Top-down lookup, with spent coins counted absent, is lookup in the one flat map the stack means |
| Coins.FetchKeeps | src/coins.cpp:64-86 | Pulling a coin up through all layers changes the meaning of none, keeps non-DIRTY entries equal to the layer below and FRESH entries absent there, and finds an entry exactly if some layer has one |
| Coins.AddKeeps | src/coins.cpp:97-123 | Adding a coin where it is allowed never throws, keeps the flags honest and overwrites exactly that outpoint in the meaning; an unspendable coin changes nothing |
| Coins.AddKeepsIff | src/coins.cpp:97-123 | Without the overwrite permission an addition succeeds and keeps the flags honest if and only if no unspent coin exists there in any layer |
| Coins.OverwriteRevives | src/coins.cpp:97-123 | Why the condition is needed: adding over an unspent coin that only a lower layer has, and spending it, brings the old coin back |
| Coins.SpendKeeps | src/coins.cpp:137-153 | Spending removes exactly that outpoint from the meaning, whether the entry is erased as FRESH or kept as a spent DIRTY one |
| Coins.UncacheKeeps | src/coins.cpp:256-262 | Dropping an unmodified entry changes no meaning |
| Coins.WriteNeverThrows | src/coins.cpp:210-218 | The misapplied-FRESH exception cannot happen when the child cache was honest about this one |
| Coins.WriteEntriesKeeps | src/coins.cpp:186-247 | Writing a child cache into its parent gives the parent the meaning the child had, with honest flags towards the grandparent |
| Coins.WriteCoinsKeeps | src/txdb.cpp:68-95 | Writing a cache into the database gives the database its meaning and stores no spent coin |
| Coins.FlushKeeps | src/coins.cpp:186-254 | A flush never throws and changes the meaning of the flushed layer not at all |
| Coins.FlushLevels | src/coins.cpp:186-254 | A flush gives the next layer down the meaning of the flushed one and changes no other layer |
| Coins.SpendLevels | src/coins.cpp:137-153 | A spend changes the meaning of the top layer only |
| Coins.FetchLevels | src/coins.cpp:64-86 | A read changes the meaning of no layer |
| Coins.AddSpendUndoes | src/coins.cpp:97-153 | A coin added without overwriting where the cache had no entry, and spent again, leaves the cache exactly as it was |
| Coins.FreshForgotten | src/coins.cpp:137-254 | A FRESH coin of the layer below that is spent above it and flushed leaves no entry there and nothing for the layers below that |
| Coins.UncacheFrees | src/coins.cpp:256-262 | Uncaching drops the entry exactly if it is neither DIRTY nor FRESH, touches no other, and an unspent coin dropped comes back as the same entry when it is read |
| CoinsView.CoinsDB.BatchWrite | src/txdb.cpp:68-95 | The entry-by-entry batch leaves the database as the specification of a whole write says |
| CoinsView.CoinsViewCache.constructor | src/coins.cpp:57-58 | A new cache over any base is empty, linked, and its memory total exact |
| CoinsView.CoinsViewCache.FetchCoin | src/coins.cpp:64-86 | The recursive fetch through the chain of objects does to the value of the whole chain what the specification does, and keeps every layer's memory total exact |
| CoinsView.CoinsViewCache.GetCoin | src/coins.cpp:88-95 | Returns what top-down lookup finds, spent or not |
| CoinsView.CoinsViewCache.HaveCoin | src/coins.cpp:165-168 | True exactly for the outpoints in the flat map the chain means |
| CoinsView.CoinsViewCache.AddCoin | src/coins.cpp:97-123 | Refines the specification, throws exactly when it says, and keeps the memory total exact; after a throw it is short by exactly the old coin |
| CoinsView.CoinsViewCache.SpendCoin | src/coins.cpp:137-153 | Refines the specification, hands out the coin lookup finds, and keeps the memory totals exact |
| CoinsView.CoinsViewCache.WriteNext | src/coins.cpp:188-244 | One entry of the child's map, with the exact condition of the throw |
| CoinsView.CoinsViewCache.WriteOne | src/coins.cpp:191-240 | A DIRTY child entry over this cache's entry: the merge of the two, no other entry touched, memory total exact |
| CoinsView.CoinsViewCache.WriteAll | src/coins.cpp:188-244 | The erasing loop, in whatever order the map is walked, computes the merged map, or throws exactly when some entry is misapplied; then the entries left are untouched and all others written |
| CoinsView.CoinsViewCache.BatchWrite | src/coins.cpp:186-247 | The write into this cache refines the specification on the whole chain and throws exactly when it says; the caller's map ends up empty, or with what a throw left unwritten |
| CoinsView.CoinsViewCache.Flush | src/coins.cpp:249-254 | Refines the specification on the whole chain, memory totals exact |
| CoinsView.CoinsViewCache.Uncache | src/coins.cpp:256-262 | Refines the specification, memory total exact |
| AddrMan.SwapKeeps | src/addrman.cpp:103-119 | Exchanging two places of the random list keeps list and positions inverse and all tables and counters consistent |
| AddrMan.DeleteKeeps | src/addrman.cpp:121-132 | Deleting an entry without references keeps everything consistent |
| AddrMan.ClearNewKeeps | src/addrman.cpp:134-146 | Freeing a new slot keeps everything consistent, deletes its holder when that was the last reference, and leaves every other entry alone |
| AddrMan.UnlinkKeeps | src/addrman.cpp:149-159 | Taking an entry out of every new bucket leaves it with no reference, so the reference assertion holds |
| AddrMan.EvictKeeps | src/addrman.cpp:167-189 | Evicting the holder of a tried slot frees that slot, gives the evicted entry one reference in its own new bucket and does not touch the entry being moved |
| AddrMan.MakeTriedKeeps | src/addrman.cpp:148-194 | A consistent state stays consistent and the entry ends in its own tried slot, whatever had to be evicted |
| AddrManOps.RunKeeps | src/addrman.cpp:92-337 | Every run of additions, successes, attempts, connections, service updates and address requests, with success times above zero and attempt times not below it, keeps every invariant, from any consistent manager |
| AddrManOps.EmptyInv | src/addrman.h:483-502 | A new manager satisfies every invariant |
| AddrManOps.StepKeeps | src/addrman.cpp:196-337 | Any one operation keeps tables, index, references and counters consistent, whatever the times and random draws |
| AddrManOps.StepStats | src/addrman.cpp:196-337 | Any one operation with a success time above zero or an attempt time not below it keeps the per-entry statistics in order |
| AddrManOps.AddKeeps | src/addrman.cpp:244-316 | Adding a known or unknown address keeps the state consistent in all branches; what each branch changes is in AddrManEffects |
| AddrManOps.InsertKeeps | src/addrman.cpp:293-314 | Taking a bucket slot, displacing its holder or giving the newcomer up leaves no entry without a reference |
| AddrManOps.BucketFound | src/addrman.cpp:222-236 | In a consistent state the search over the new buckets finds the entry, so the early exit of a success report is never taken |
| AddrManOps.GoodKeeps | src/addrman.cpp:196-242 | A success for a known service keeps the state consistent and always ends with that entry in the tried table |
| AddrManOps.GoodStats | src/addrman.cpp:196-242 | The statistics stay in order if and only if the time of a matching success is above zero |
| AddrManOps.AttemptKeeps | src/addrman.cpp:318-337 | Reporting an attempt keeps the state consistent |
| AddrManOps.AttemptStats | src/addrman.cpp:318-337 | The statistics stay in order if and only if the time of a matching attempt is not negative |
| AddrManOps.ConnectedKeeps | src/addrman.cpp:480-495 | Reporting a connection keeps the state consistent |
| AddrManOps.SetServicesKeeps | src/addrman.cpp:497-511 | Updating the services keeps the state consistent |
| AddrManOps.AddStats | src/addrman.cpp:244-316 | Additions keep the statistics in order |
| AddrManOps.GetAddrKeeps | src/addrman.cpp:463-478 | The partial shuffle keeps the state consistent and changes nothing but list order and positions |
| AddrManOps.GetAddrAnswer | src/addrman.cpp:463-478 | The answer holds only good entries, each at most once and in list order, and never more than the limit |
| AddrManager.Manager.constructor | src/addrman.h:483-502 | A new object stands for the empty state |
| AddrManager.Manager.SwapRandom | src/addrman.cpp:103-119 | In place, the swap of the specification |
| AddrManager.Manager.Delete | src/addrman.cpp:121-132 | In place, the deletion of the specification; its assertions hold |
| AddrManager.Manager.ClearNew | src/addrman.cpp:134-146 | In place, the clearing of the specification; its assertion holds |
| AddrManager.Manager.UnlinkIn | src/addrman.cpp:151-155 | One bucket of the unlinking loop drops the reference exactly if that slot holds the entry |
| AddrManager.Manager.Unlink | src/addrman.cpp:149-157 | The loop over all buckets removes exactly the slots that hold the entry |
| AddrManager.Manager.MakeTried | src/addrman.cpp:148-194 | In place, the move of the specification; its assertions hold |
| AddrManager.Manager.TakeSlot | src/addrman.cpp:161-193 | Eviction, if needed, and entry into the tried slot |
| AddrManager.Manager.Evict | src/addrman.cpp:167-188 | In place, the eviction of the specification; its assertions hold |
| AddrManager.Manager.EvictRoom | src/addrman.cpp:173-182 | The holder leaves the tried table and its place in the new table is cleared |
| AddrManager.Manager.FindBucket | src/addrman.cpp:222-232 | The search from a random bucket round finds a bucket exactly if one holds the entry |
| AddrManager.Manager.Find | src/addrman.cpp:83-90 | Finds an entry exactly if one has that address and port |
| AddrManager.Manager.Good | src/addrman.cpp:196-242 | In place, the success report of the specification |
| AddrManager.Manager.Promote | src/addrman.cpp:219-241 | Moves the entry to the tried table unless it is there |
| AddrManager.Manager.Attempt | src/addrman.cpp:318-337 | In place, the attempt report of the specification |
| AddrManager.Manager.Connected | src/addrman.cpp:480-495 | In place, the connection report of the specification |
| AddrManager.Manager.SetServices | src/addrman.cpp:497-511 | In place, the service update of the specification |
| AddrManager.Manager.GetAddr | src/addrman.cpp:463-478 | In place, the shuffle and answer of the specification |
| AddrManager.Manager.Create | src/addrman.cpp:92-101 | In place, a new entry at the end of the random list |
| AddrManager.Manager.Insert | src/addrman.cpp:293-314 | In place, the bucket decision of the specification |
| AddrManager.Manager.Draw | src/addrman.cpp:279-284 | The stochastic test passes exactly for the multiples of two to the reference count |
| AddrManager.LuckyIff | src/addrman.cpp:279-284 | With n references one more is admitted by exactly one of 2^n draws |
| AddrManager.Manager.AddKnown | src/addrman.cpp:257-284 | In place, the update of a known address, in the order of the original's exits |
| AddrManager.Manager.WantsMore | src/addrman.cpp:268-284 | Whether a known address takes one more reference: what is heard is newer, it is not tried, it has fewer than eight, and the draw is a multiple of two to their number |
| AddrManager.Manager.AddUnknown | src/addrman.cpp:285-314 | In place, the entry of an unknown address |
| AddrManager.Manager.Add | src/addrman.cpp:244-316 | In place, the addition of the specification, and whether the address was new |
| AddrManEffects.AddEnters | src/addrman.cpp:244-316 | A routable address that is not known, its slot free, is entered in info, index, random list, slot and new counter, with the penalised time, its source, services and one reference, and nothing else changes |
| AddrManEffects.AddDisplaces | src/addrman.cpp:293-314 | With its slot held by an entry that has other references, the holder loses just this one and the address is entered |
| AddrManEffects.AddReplaces | src/addrman.cpp:293-314 | With its slot held by a terrible entry on its last reference, that entry is gone from every structure and the address has its slot and its position in the random list |
| AddrManEffects.AddRefused | src/addrman.cpp:293-314 | With its slot held by an entry on its last reference that is not terrible, the address is dropped again: only the count of ids has changed, and it still counts as new |
| AddrManEffects.AddRenews | src/addrman.cpp:257-284 | A known address keeps its entry with renewed time and services, and takes one more slot exactly if it is wanted and the slot is free or held by another entry that is terrible |
| AddrManEffects.AddIgnores | src/addrman.cpp:246-246 | An address that cannot be routed to changes nothing |
| AddrManEffects.AttemptNotes | src/addrman.cpp:318-337 | An attempt sets the time of the last try, and counts as a failure exactly if it is to count and none was counted since the last success of any peer; no other field and no other entry changes |
| AddrManEffects.CountsOnce | src/addrman.cpp:329-336 | Between two successes an entry's failures count once |
| AddrManEffects.ConnectedRenews | src/addrman.cpp:480-495 | A connection sets the time, in 32 bits, exactly if it is more than twenty minutes old |
| AddrManEffects.ServicesSet | src/addrman.cpp:497-511 | Sets the services of just that entry |
| AddrManEffects.UnheardIgnored | src/addrman.cpp:196-511 | Reports about an address that is unknown, or known with another port, change nothing but the time of the last success |
| AddrManEffects.GoodPromotes | src/addrman.cpp:196-242 | A success is noted in all three statistics; an entry that was new leaves all its new slots for its tried slot, and an entry that held that slot takes one in the new table by its own source, with the holder there displaced |
| AddrManEffects.TerribleIff | src/addrman.cpp:47-67 | An entry is terrible exactly if it was not tried in the last minute and its time is none, more than ten minutes ahead or more than thirty days back, or it failed three times without any success or ten times without one for a week |
| AddrManEffects.GoodNotTerrible | src/addrman.cpp:47-242 | Who just succeeded is not terrible for a minute |
| AddrManEffects.GetAddrGives | src/addrman.cpp:463-478 | The answer holds at most 23 percent of the entries and at most 2500; if it holds fewer, every entry that is not terrible is in it |
| AddrManCheck.Check | src/addrman.cpp:398-460 | Returns zero if and only if every entry, both tables, the random list and the counters are consistent and the hash key is set |
| AddrManCheck.CheckEntries | src/addrman.cpp:404-425 | The pass over the entries fails exactly on a bad entry, and otherwise collects the tried ids and the references each new entry owes |
| AddrManCheck.CheckTried | src/addrman.cpp:430-442 | The pass over the tried table fails exactly on a slot that is not its holder's own, and leaves the ids without a slot |
| AddrManCheck.CheckNew | src/addrman.cpp:444-453 | The pass over the new table fails only on a misplaced slot or one reference too many, and otherwise leaves the references still owed |
| AddrManCheck.InvChecked | src/addrman.cpp:398-460 | Every state that satisfies the invariants passes the check |
| AddrManCheck.RandomSize | src/addrman.cpp:402-402 | The random list is as long as there are entries of both kinds |
| AddrManDisk.LoadWholeIff | src/addrman.h:367-481 | Loading any file, of whatever version, counts, addresses and references, either fails with one of four errors or gives a manager that is consistent if and only if no count is negative and entries read for one and the same address all end up without a reference |
| AddrManDisk.LoadWhole | src/addrman.h:367-481 | With distinct addresses what is loaded is always consistent |
| AddrManDisk.FilledStocked | src/addrman.h:398-460 | Before pruning, random list, both tables, references and counters agree whatever the file holds, and the index holds the last entry of every address |
| AddrManDisk.PruneIs | src/addrman.h:462-473 | Pruning removes exactly the entries without a reference, and from the index every address one of them had |
| AddrManDisk.PrunedIndex | src/addrman.h:462-473 | After pruning the index is right if and only if no entry that stays shares its address with another that was read |
| AddrManDisk.RepeatLost | src/addrman.h:421-437 | A service repeated among the tried records, with ids from zero, is lost to its own slot and changes nothing |
| AddrManDisk.RepeatBreaks | src/addrman.h:399-437 | One new and one tried record for the same address, in a file of another format, load as an inconsistent manager |
| AddrManDisk.Unserialize | src/addrman.h:367-481 | The loops, with counters preset from the file and corrected afterwards, compute that load for every file, with ids from below zero where a count is negative |
| AddrManDisk.LoadNewKeeps | src/addrman.h:399-416 | A new entry keeps the partly loaded state consistent, with or without a reference of its own |
| AddrManDisk.LoadTriedKeeps | src/addrman.h:421-437 | A tried entry, entered or lost to a taken slot, keeps the partly loaded state consistent |
| AddrManDisk.LoadRefKeeps | src/addrman.h:443-459 | A reference, taken or refused, keeps the partly loaded state consistent |
| AddrManDisk.PruneKeeps | src/addrman.h:462-473 | Pruning leaves no entry without a reference among those passed and keeps the rest consistent |
| AddrManDisk.ReadNews | src/addrman.h:399-417 | The loop over new entries equals the fold of its specification, and ids go on from the stored count |
| AddrManDisk.ReadTrieds | src/addrman.h:420-438 | The loop over tried entries, with its count of lost ones, equals the fold of its specification |
| AddrManDisk.ReadRow | src/addrman.h:442-459 | The loop over one bucket's references equals the fold of its specification |
| AddrManDisk.ReadBuckets | src/addrman.h:441-460 | The loop over all buckets equals the fold of its specification; no reference is taken from a file of another layout |
| AddrManDisk.PruneAll | src/addrman.h:464-473 | The pruning loop, in the order of ids, equals its specification |
| AddrManRecords.LoadsWholeIff | src/addrman.h:367-481 | What is loaded from a file is consistent if and only if, of its records alone: no count is negative, no new record that some bucket takes a reference to shares its address with another new one, and no tried record that is first of its slot shares its address with a new one or another such |
| AddrManRecords.FilledRecordsAre | src/addrman.h:398-460 | New records become the entries of their number, with a reference exactly if they are referred to; tried records become entries, in order, exactly if they are first of their slot; there are no other entries |
| AddrManRecords.NewsLoadedAre | src/addrman.h:399-416 | In a file of another format a new record has a reference exactly if no record before it has the slot of its source |
| AddrManRecords.TriedsLoadedAre | src/addrman.h:421-437 | A tried record is entered exactly if no record before it, entered or lost, has its slot |
| AddrManRecords.BucketsLoadedAre | src/addrman.h:441-460 | After every bucket each new record has as many references as buckets in which it was the first of its slot among those with fewer than eight |
| AddrManRecords.RefTaken | src/addrman.h:443-459 | A number in a bucket is taken exactly if it is the first of its slot there that stands for such a record |
| AddrManRoundTrip.RoundTrip | src/addrman.h:316-481 | A saved consistent manager loads into a new one without loss: under the renumbering of ids in file order every entry has the same service, source, services, time, last success, attempts, table and reference count, with the times of the last try and last counted attempt zero and its position its number; same new and tried tables, index and totals, the count of ids their number, the last success of any entry 1, and every invariant holds again |
| AddrManRoundTrip.SavedHolds | src/addrman.h:316-351 | The file's records are the entries in order, new ones first, each with its service, source, services, time, last success and attempts |
| AddrManRoundTrip.Serialize | src/addrman.h:316-365 | The loops write exactly the file that SavedHolds and RoundTrip are about; neither counter assertion fires |
| AddrManRoundTrip.WritePass | src/addrman.h:330-351 | One pass over the entries writes each picked one once, and the place noted for an id is the number it loads back as |
| AddrManRoundTrip.WriteRow | src/addrman.h:352-364 | A bucket is written as the file numbers of its holders in slot order |
| AddrManRoundTrip.Limits | src/addrman.h:388-396 | No consistent manager is ever too large to be loaded again |
| AddrManRoundTrip.SavedDistinct | src/addrman.h:316-365 | A saved manager holds no address twice |
| AddrManRoundTrip.NewsLoaded | src/addrman.h:399-417 | New entries come back in file order under their file numbers |
| AddrManRoundTrip.TriedsLoaded | src/addrman.h:420-438 | Every tried entry comes back: no two saved ones want the same slot |
| AddrManRoundTrip.RefTaken | src/addrman.h:443-459 | Every saved reference finds its slot free and its entry below the limit |
| AddrManRoundTrip.NothingPruned | src/addrman.h:462-473 | Nothing is pruned after loading a saved manager |
| CheckQueue.RunKeeps | src/checkqueue.h:65-156 | In every interleaving of one master and any number of workers, with spurious wake-ups, the outstanding count is the queue plus all batches in hand, every check added is queued, in hand or done exactly once, and idle and total counts are exact |
| CheckQueue.WaitAnswers | src/checkqueue.h:65-142 | Every answer the master ever got is true exactly when all checks added since its previous wait are; no verdict leaks into another session |
| CheckQueue.MasterNotStranded | src/checkqueue.h:77-99 | A master asleep without a pending notification always has some worker with an unfinished batch |
| CheckQueue.StepKeeps | src/checkqueue.h:65-156 | Every atomic step keeps all of this |
| CheckQueue.ReportKeeps | src/checkqueue.h:73-86 | Accounting for a finished batch, with the notification, keeps conservation and verdicts |
| CheckQueue.ReturnKeeps | src/checkqueue.h:89-96 | A return happens with nothing outstanding, so the recorded verdict is that of the whole session and the next starts clean; who returns and when is in MasterReturnsIff and WorkersStay |
| CheckQueue.SleepKeeps | src/checkqueue.h:97-99 | Going to sleep keeps the invariants, in particular that a sleeping master has something to wait for |
| CheckQueue.TakeKeeps | src/checkqueue.h:109-121 | Taking a batch moves checks from the queue to the taker, none lost |
| CheckQueue.BatchFits | src/checkqueue.h:109-111 | A batch is never empty and never larger than the queue |
| CheckQueue.BatchSplits | src/checkqueue.h:113-119 | Queue and batch together are the old queue |
| CheckQueue.WorkersStay | src/checkqueue.h:65-131 | On every run no worker leaves the loop while the queue is not shut down |
| CheckQueue.WorkerSleeps | src/checkqueue.h:88-99 | A worker that takes the lock with the queue empty and no shutdown goes to sleep |
| CheckQueue.FindsWork | src/checkqueue.h:100-126 | Any thread that takes the lock with the queue not empty comes out working on at least one check, the last ones in reverse order, and no more than its share of the queue for the threads there are, idle ones counted twice, and the batch size allow |
| CheckQueue.MasterReturnsIff | src/checkqueue.h:88-96 | The master returns from its wait in a step exactly if it takes the lock, the queue is empty and, its own batch accounted for, nothing is outstanding; then one verdict is logged, true exactly if all checks added since the last are |
| CheckQueue.Queue.constructor | src/checkqueue.h:133-135 | A new queue stands for the initial state |
| CheckQueue.Queue.AddChecks | src/checkqueue.h:145-156 | In place, the addition step |
| CheckQueue.Queue.CleanUp | src/checkqueue.h:73-86 | In place, the accounting step, and exactly when it notifies the master |
| CheckQueue.Queue.ReturnOrSleep | src/checkqueue.h:88-98 | In place, the decision on an empty queue: a master, or anyone at shutdown, with nothing outstanding leaves with the verdict; anyone else is counted idle and sleeps |
| CheckQueue.Queue.TakeBatch | src/checkqueue.h:109-121 | In place, the batch taken from the back in reverse order, of the size of a fair share |
| CheckQueue.ExecuteBatch | src/checkqueue.h:123-126 | The running verdict is the conjunction, with checks after a failure skipped |
| Merkle.MatchesSound | src/merkleblock.cpp:162-191 | Soundness: under an injective pair hash and the true transaction count, whatever bits and hashes are given, if extraction returns the real root then every returned index and id is a transaction of the block at that index |
| Merkle.ExtractSound | src/merkleblock.cpp:97-142 | If the hash extracted for a node is the real one, every match extracted below it is a transaction at its index |
| Merkle.RoundTrip | src/merkleblock.cpp:56-191 | For distinct ids and any match mask, build, pack, unpack and extract returns the Merkle root and exactly the matched ids and indexes, in order |
| Merkle.Decodes | src/merkleblock.cpp:76-142 | Extraction from anywhere inside a longer code reads back exactly what building wrote for that subtree and stops after it |
| Merkle.NodesDiffer | src/merkleblock.cpp:131-135 | Different nodes of one level have different hashes when the ids are distinct, so the equal-branches test never rejects an honest tree |
| Merkle.CodeSize | src/merkleblock.h:37-42 | At most one hash per transaction, and at most one plus matches times height |
| Merkle.BuildSizes | src/merkleblock.cpp:76-95 | The bounds on the number of hashes, for every subtree and its own matches |
| Merkle.BitCount | src/merkleblock.h:43-50 | The exact number of bits: twice the hashes less one, plus one for every visited node with a single child; so the documented bound holds if and only if there is no such node |
| Merkle.BitBoundFails | src/merkleblock.h:43-50 | With five transactions of which the last matches, two hashes take five bits, above the documented bound of three |
| Merkle.WidthHalves | src/merkleblock.h:68-70 | Each level is half as wide as the one below it, rounded up |
| Merkle.RootExists | src/merkleblock.cpp:151-154 | The height loop ends at a level of one node |
| Merkle.Pack | src/merkleblock.h:109-113 | Packing bits into bytes, least significant first, loses none and pads with zeros |
| Merkle.PartialMerkleTree.ParentOfMatch | src/merkleblock.cpp:79-83 | The scan finds a match exactly if there is one under the node |
| Merkle.PartialMerkleTree.TraverseAndBuild | src/merkleblock.cpp:76-95 | The traversal appends exactly the subtree's code |
| Merkle.PartialMerkleTree.TraverseAndExtract | src/merkleblock.cpp:97-142 | The traversal with running counters computes the recursive extraction |
| Merkle.PartialMerkleTree.TreeLevels | src/merkleblock.cpp:151-154 | The loop computes the height of the tree |
| Merkle.PartialMerkleTree.constructor | src/merkleblock.cpp:144-158 | A new tree holds the code of the whole block |
| Merkle.PartialMerkleTree.ExtractAll | src/merkleblock.cpp:162-191 | In place, the extraction of the specification; a tree once found bad stays rejected |
| Bloom.NoFalseNegatives | src/bloom.cpp:234-283 | After any run of insertions, every one of the last two full generations and the current one is found |
| Bloom.LastElementsKept | src/bloom.h:119-120 | After any run of insertions, each of the last nElements inserted keys is found |
| Bloom.TaggedIff | src/bloom.cpp:234-264 | After any run of insertions a cell is tagged exactly if some key of the current generation or the two before has a hash that leads to it; the i-th key belongs to generation i divided by the keys per generation |
| Bloom.ContainsIff | src/bloom.cpp:234-283 | A key is found exactly if each of its cells is hit by some key of those three generations |
| Bloom.TagWiped | src/bloom.cpp:241-249 | The masked two-word wipe clears exactly the cells tagged with the reused generation and no other |
| Bloom.TagMarked | src/bloom.cpp:259-262 | Writing one cell sets its tag to the current generation and leaves the other 63 of the word pair |
| Bloom.TagMarkAll | src/bloom.cpp:253-263 | Marking a key leaves exactly its own cells with the new tag |
| Bloom.InsertTracks | src/bloom.cpp:234-264 | Every insertion keeps each recent insertion's cells tagged with its own turn or a later one |
| Bloom.ResetTracks | src/bloom.cpp:290-298 | A reset filter remembers nothing and is ready |
| RollingBloom.RollingBloomFilter.constructor | src/bloom.cpp:191-225 | A new filter of any number of word pairs is a reset one with half of nElements, rounded up, per generation |
| RollingBloom.RollingBloomFilter.Wipe | src/bloom.cpp:244-249 | In place, the wipe of the specification on both planes |
| RollingBloom.RollingBloomFilter.Mark | src/bloom.cpp:253-263 | In place, the marking of the specification |
| RollingBloom.RollingBloomFilter.Insert | src/bloom.cpp:234-264 | In place, the insertion of the specification |
| RollingBloom.RollingBloomFilter.Contains | src/bloom.cpp:271-283 | Exactly whether all of the key's cells are tagged |
| RollingBloom.RollingBloomFilter.Reset | src/bloom.cpp:290-298 | In place, the reset of the specification |
| Chain.BlockIndex.GetAncestor | src/chain.cpp:96-120 | The walk over skip links ends, and returns what following predecessors returns, or nothing above the block or below zero; with all links set, from a height below 2^k it takes at most 3k(k+1)/2 steps |
| Chain.BlockIndex.BuildSkip | src/chain.cpp:126-130 | The new link is the right ancestor, so every block of the line keeps correct links, and all have one if those before had |
| Chain.GetSkipHeight | src/chain.cpp:84-94 | The height to skip to is below the height skipped from |
| Chain.SkipsEven | src/chain.cpp:84-94 | From (2j+1)2^k, k above zero, the skip goes to 2j*2^k |
| Chain.SkipsOdd | src/chain.cpp:84-94 | From (2i+1)2^l + 2^k + 1, k above zero and below l, it goes to 2i*2^l + 1, and from 2^k + 1 to 1 |
| Chain.StepsBound | src/chain.cpp:96-120 | The walk from any height below 2^k to any lower one takes at most 3k(k+1)/2 steps |
| Chain.InvertStep | src/chain.cpp:79-81 | Clearing the lowest one bit of a number is doing so for its half, or dropping its last bit |
| Chain.InvertLower | src/chain.cpp:79-81 | Clearing the lowest one bit gives a smaller number, and an even one from an even one |
| Chain.ActiveChain.SetTip | src/chain.cpp:11-22 | Stopping at the first block already in place still leaves every entry the tip's ancestor at its height |
| Chain.ActiveChain.FindFork | src/chain.cpp:55-66 | The result is on both lines, and every block on both lines is an ancestor of it |
| Chain.ActiveChain.GetLocator | src/chain.cpp:24-53 | The locator lists the ancestors at the locator heights, by index or by skip list alike |
| Chain.HeightsFit | src/chain.cpp:24-53 | Those heights start at the block, fall strictly and end with the genesis block |
| Chain.HeightsAre | src/chain.cpp:24-53 | The i-th of them, counted from zero, lies i back for i up to 10 and 9 + 2^(i-10) back beyond, but not below zero, and it is the last exactly if that reaches zero |
| Arith.Uint256.Set64 | src/arith_uint256.h:79-85 | Stands for the 64-bit number |
| Arith.Uint256.GetLow64 | src/arith_uint256.h:261-264 | The number modulo 2^64 |
| Arith.Uint256.Add | src/arith_uint256.h:120-128 | The limb loop with carry is addition modulo 2^256, also of a number to itself |
| Arith.Uint256.Complement | src/arith_uint256.h:62-67 | 2^256 - 1 less the number |
| Arith.Uint256.Increment | src/arith_uint256.h:153-159 | The rippling increment is addition of one modulo 2^256 |
| Arith.Uint256.Negated | src/arith_uint256.h:69-75 | Complement and increment is negation modulo 2^256 |
| Arith.Uint256.Sub | src/arith_uint256.h:130-133 | Subtraction modulo 2^256 |
| Arith.Uint256.MulSmall | src/arith_uint256.cpp:51-59 | Multiplication by a 32-bit word, modulo 2^256; no intermediate result exceeds 64 bits |
| Arith.Uint256.MulRow | src/arith_uint256.cpp:66-71 | One row of the schoolbook product, with what the cut-off limbs lose |
| Arith.Uint256.Mul | src/arith_uint256.cpp:62-74 | The schoolbook product is the product modulo 2^256, except that a number multiplied by itself in place becomes zero |
| Arith.Uint256.Shl | src/arith_uint256.cpp:21-33 | Multiplication by 2^shift modulo 2^256, for every shift |
| Arith.Uint256.Shr | src/arith_uint256.cpp:36-48 | Division by 2^shift, for every shift |
| Arith.Uint256.CompareTo | src/arith_uint256.cpp:107-113 | The order of the numbers |
| Arith.Uint256.EqualTo | src/arith_uint256.cpp:115-122 | Equality with a 64-bit number |
| Arith.Uint256.Bits | src/arith_uint256.cpp:151-161 | The position of the highest bit, plus one; zero for zero |
| Arith.Uint256.DivBit | src/arith_uint256.cpp:92-101 | One round of shift and subtract keeps quotient, remainder and shifted divisor in step |
| Arith.Uint256.Div | src/arith_uint256.cpp:77-104 | The exact floor quotient for every non-zero divisor; division by zero fails and leaves zero |
| Compact.OverflowExact | src/arith_uint256.cpp:193-196 | The overflow flag is set if and only if mantissa and exponent stand for a number of more than 256 bits |
| Compact.Normal | src/arith_uint256.cpp:200-218 | An encoded mantissa is the number's leading bytes and has its top bits where a normal form has them |
| Compact.Fields | src/arith_uint256.cpp:218-219 | The three fields of the word read back as they were put in |
| Compact.Truncates | src/arith_uint256.cpp:200-220 | Decoding an encoding drops exactly the bytes below the mantissa |
| Compact.ExponentBound | src/arith_uint256.cpp:217-217 | The size byte of a 256-bit number is at most 33 |
| Compact.CompactRoundTrip | src/arith_uint256.cpp:181-221 | For every 256-bit number the word is valid, neither negative nor overflowing, decodes to the number without its low bytes, and encodes to itself again |
| Compact.CompactMonotone | src/arith_uint256.cpp:181-221 | Encoding and decoding keeps order |
| Work.SetCompact | src/arith_uint256.cpp:181-198 | Sets the limbs to the decoded number and both flags to their exact conditions |
| Work.GetCompact | src/arith_uint256.cpp:200-221 | Computes the encoding from the limbs; both assertions hold |
| Work.TargetFits | src/chain.cpp:137-144 | A valid target plus one never wraps, because the compact form has no all-ones number |
| Work.ProofQuotient | src/chain.cpp:140-144 | The rearranged quotient equals 2^256 divided by the target plus one |
| Work.GetBlockProof | src/chain.cpp:132-145 | floor(2^256 / (target + 1)) for every valid word, zero for every other |
| Work.Scale | src/pow.cpp:97-106 | Rescaling with the shift for targets above 238 bits, as code over limbs |
| Work.Capped | src/pow.cpp:108-110 | Encodes the smaller of target and limit |
| Work.CalculateNextWorkRequired | src/pow.cpp:73-111 | The encoding of the rescaled target under the limit, with the span passed on in 32 bits, or the old word without retargeting, for any spans and limit |
| Work.Clamped | src/pow.cpp:83-90 | The span used is the actual one between a quarter and four times the intended one, and that end of the range otherwise |
| Work.MainFits | src/chainparams.cpp:135-138 | Every target and clamped span of the main network meets the conditions for exact rescaling |
| Work.MainExact | src/pow.cpp:73-111 | On the main network the next word encodes min(limit, floor(old * span / timespan)), with no wrap |
| Work.MainStep | src/pow.cpp:73-111 | On the main network the new target is at most four times the old one and at most the limit, and at least a quarter of the old one as encoded |
| Retarget.RescaledIff | src/pow.cpp:97-106 | For every target, span and intended time, rescaling loses no high bit if and only if the product of the leading 238 bits with the span is below 2^256 and below the intended time shifted to where the dropped bits leave room |
| Retarget.HeadExact | src/pow.cpp:97-101 | The bits shifted out before scaling are zeros, because a target comes from a compact word |
| Retarget.UnwrappedCut | src/pow.cpp:100-106 | Scaling the leading bits gives exactly target times span over intended time, cut to the bits that were kept |
| Retarget.SameWord | src/pow.cpp:110-110 | Numbers that differ only below the mantissa have the same word |
| Retarget.NextExact | src/pow.cpp:82-110 | On every network, when no high bit is lost the next word encodes min(limit, floor(old * span / timespan)), in spite of the dropped bits |
| Retarget.TestExactIff | src/pow.cpp:82-110 | On the test network, with its limit of all ones, it does if and only if the scaled target has at most 256 bits or leaves one of the targets that share the limit's word beyond them |
| Retarget.TestLosesTarget | src/pow.cpp:105-110 | From the word 0x20400000 a slow period leads to the target zero, which no block meets |
| Packages.Transitive | src/miner.cpp:422-424 | An ancestor's ancestors are ancestors, and an ancestor always has a smaller ancestor count |
| Packages.SoundClosed | src/miner.cpp:350-371 | A list with every ancestor before its descendants is closed under ancestors |
| Packages.SoundOrder | src/miner.cpp:419-429 | In such a list no transaction comes before one it spends |
| Packages.UpdateStep | src/miner.cpp:377-397 | Deducting one more added transaction from its descendants, in any order of either loop |
| Packages.RestAfter | src/miner.cpp:389-391 | A package's totals after an inclusion are those before less the included ancestors |
| Packages.TrackedStart | src/miner.cpp:448-450 | The kept totals are exact for every descendant of what the priority pass added |
| Packages.TrackedAfter | src/miner.cpp:560-569 | Adding a package keeps the totals of all others at or above what they still need, exact for those that never failed, and keeps only entries outside the block |
| Packages.TrackedFail | src/miner.cpp:515-551 | Erasing a failed entry keeps that, the entry now counted among the failed |
| Templates.PushOk | src/miner.cpp:350-371 | Adding a transaction whose ancestors are in keeps the block sound, closed and within size, with exact counters and fees |
| Templates.AncestorsFirst | src/miner.h:91-97 | In a package sorted by ancestor count every transaction follows all its ancestors that are not in the block yet |
| Templates.PackageOk | src/miner.cpp:557-564 | Adding a sorted package that fits keeps the block sound at every step |
| Selection.AssembledSane | src/miner.cpp:150-191 | Every block any run of priority and package steps ends with is sound, final, within its size, and has fewer signature operations than the greatest size allows |
| Selection.RoundKeeps | src/miner.cpp:462-570 | Every round of package selection keeps the block sound, final and within both limits, and the kept totals right for every entry |
| Selection.ReadiedKeeps | src/miner.cpp:607-651 | Every priority step keeps the block sound, final and within both limits |
| Selection.EntersKeeps | src/miner.cpp:535-569 | A package that enters keeps the block within both limits although the totals it was judged by may be over-estimated |
| Selection.JudgedFairly | src/miner.cpp:462-508 | The totals an entry is judged by are never below what it needs, and exact unless it has failed before |
| Selection.NotStale | src/miner.cpp:401-417 | An entry that is not skipped has cached totals that are exactly what it still needs |
| Selection.ParentsSuffice | src/miner.cpp:251-258 | If the parents are in a closed block, all ancestors are |
| SigOps.AlwaysWithinIff | src/miner.cpp:272-282 | Whatever the pool, with packages picked by the comparators or in any order, the finished block is within the signature operation limit for its own size, if and only if the greatest size is at most one megabyte and a byte |
| SigOps.SmallAlwaysWithin | src/miner.cpp:272-282 | With a greatest size of at most one megabyte and a byte every reachable block is within the limit for its own size |
| SigOps.LeadsBeyond | src/miner.cpp:515-570 | With any larger greatest size a pool of three leads, by the comparators' own picks, to a block that is not within it: an entry that failed once comes back with a size that still counts an ancestor in the block, and is let in under the limit of the next megabyte |
| SigOps.EndsBeyond | src/miner.cpp:515-570 | That block has 25100 operations at a size that allows fewer than 20000 |
| Fees.FeesExactIff | src/miner.cpp:373-399 | The modified fees kept for an entry after an inclusion are exact if and only if the deltas of the ancestors deducted by updates cancel, because creating kept totals deducts the modified fee and updating them the plain one |
| Fees.FeesAfter | src/miner.cpp:373-399 | Without deltas every inclusion keeps all fees exact for entries that never failed, in whatever order its transactions are taken |
| Fees.FeesMayDiffer | src/miner.h:117-124 | With one delta of 100 the fees kept for a child are 10 or 110, depending on which parent is taken first |
| Fees.UpdateFees | src/miner.cpp:373-399 | Both loops together, in any order, compute that deduction |
| Fees.DeductFees | src/miner.cpp:378-396 | The inner loop over the descendants of one included transaction |
| Scores.FeesAlwaysExact | src/miner.cpp:440-571 | Without deltas, in every state of every run of priority steps and package rounds, whatever is picked, fees are kept for exactly the entries that totals are kept for, and are those of what the entry still needs unless it has failed |
| Scores.AlwaysBest | src/miner.cpp:431-439 | Without deltas, in every round of every run by score, the package picked has with what it still needs no lower a fee rate than any other package still to be looked at, entries that failed apart |
| Scores.PicksBest | src/miner.cpp:472-499 | The comparison of the first entry with kept totals and the next of the pool finds that package, although only some rates are kept up to date |
| Scores.JudgedChain | src/miner.h:74-86 | Comparing rates by cross multiplication is transitive on what entries are judged by, failed ones included |
| Scores.AheadExact | src/miner.cpp:401-417 | What an entry still to be looked at is compared by is the fee and size of what it still needs |
| Scores.LedgerKeeps | src/miner.cpp:462-570 | Every round keeps fees exact along with block and totals |
| Scores.SameEntries | src/miner.cpp:383-394 | An inclusion creates and updates fees for the same entries as the other totals, in whatever order |
| Scores.ByScoreAssembled | src/miner.cpp:440-571 | What runs by score lead to is among what runs in any order lead to |
| Endings.AllIn | src/miner.cpp:440-653 | If all entries are final, pay the minimum rate for themselves and together leave room in size and signature operations, then whichever way the selection ends the whole pool is in the block |
| Endings.TakesAll | src/miner.cpp:440-571 | With room for all and the fee test aside, the selection ends with the whole pool in the block |
| Endings.LookedAtAll | src/miner.cpp:462-571 | When nothing is left to look at, every entry of the pool is in the block or was picked at some point and did not pass |
| Endings.RoomForAll | src/miner.cpp:501-551 | With room for all, an entry that is picked and never failed passes every test |
| Endings.NeverStops | src/miner.cpp:510-513 | When every entry pays the minimum rate for itself, no package that never failed is stopped by the fee test |
| Endings.PayTogether | src/miner.cpp:510-513 | Entries that each pay the rate pay it together |
| Endings.EnoughIff | src/amount.cpp:23-38 | A fee is enough for a size exactly if it falls short of the rate by less than one unit, and is at least one unit where anything is due |
| Endings.AllowFreeIff | src/txmempool.h:32-39 | The priority above which a transaction needs no fee is 57600000 |
| Endings.StandsStill | src/miner.cpp:522-530 | Every round in which the best entry leaves no room counts towards giving up, until one is included |
| Miner.BlockAssembler.CreateNewBlock | src/miner.cpp:149-197 | For every pool and configuration the two selections give the end of a run: no transaction twice, every parent from the pool before its child, closed under ancestors, all final, size and operation counters exact, the size never above the limit and the operations below those of the greatest size; both selections end in one of their three ways; and if fees are exact, all entries are final, pay the minimum rate and together leave room, the whole pool is in the block |
| Miner.BlockAssembler.AddPriorityTxs | src/miner.cpp:573-653 | Its assertion holds; it is a run of priority steps, each adding an entry of greatest priority among those that are ready and were not turned down, and it goes on until the reserved size is reached or a transaction without the right to be free was added, no entry is ready that was not turned down, or one leaves no room close to a full block |
| Miner.BlockAssembler.NextPriority | src/miner.cpp:608-651 | The entry of greatest priority comes off the queue; it waits, is turned down, or enters the block and wakes its waiting children |
| Miner.BlockAssembler.Front | src/miner.cpp:609-612 | An entry of greatest priority among those queued |
| Miner.BlockAssembler.TryForBlock | src/miner.cpp:309-348 | A ready entry passes exactly if it was not to be turned down; the pass is finished only when it left no room close to a full block |
| Miner.BlockAssembler.AddPackageTxs | src/miner.cpp:440-571 | Only appends, and is a run of package rounds in which the comparators pick the entry and every entry considered passed the fee test; it ends only when nothing is left, the best entry does not pay the minimum rate for its size, or more than a thousand in a row left no room with the block within 1000 bytes of its limit |
| Miner.BlockAssembler.Begin | src/miner.cpp:448-450 | Totals and fees are kept for exactly the descendants of what the priority pass added |
| Miner.BlockAssembler.Judge | src/miner.cpp:501-551 | An entry passes exactly if its totals leave room, and all it still needs is final and fits |
| Miner.BlockAssembler.Consider | src/miner.cpp:501-569 | One evaluation of the specification: the package enters whole or the entry is refused, and one taken from the kept totals leaves them |
| Miner.BlockAssembler.Advance | src/miner.cpp:472-570 | One round of the loop is one round of the specification and comes nearer the end, or the best entry does not pay and nothing changes |
| Miner.BlockAssembler.constructor | src/miner.cpp:125-139 | A new assembler holds the empty block with the coinbase reserve |
| Miner.BlockAssembler.IsStillDependent | src/miner.cpp:251-258 | True exactly if some parent waiting in the pool is not in the block |
| Miner.BlockAssembler.OnlyUnconfirmed | src/miner.cpp:260-270 | The erasing loop keeps exactly what is not in the block |
| Miner.BlockAssembler.TestPackage | src/miner.cpp:272-282 | The strict size and operation limits, the latter for the block with the package |
| Miner.BlockAssembler.TestPackageTransactions | src/miner.cpp:287-307 | In whatever order the package is walked: all are final and the whole package fits |
| Miner.BlockAssembler.TestForBlock | src/miner.cpp:309-348 | Exactly when a transaction may be added, and how a refusal moves the give-up state |
| Miner.BlockAssembler.AddToBlock | src/miner.cpp:350-371 | All counters and lists move together |
| Miner.BlockAssembler.UpdatePackagesForAdded | src/miner.cpp:373-399 | Both loops together deduct from every descendant outside the added set exactly its added ancestors |
| Miner.BlockAssembler.UpdateDescendants | src/miner.cpp:378-396 | The inner loop, creating or updating the kept totals |
| Miner.BlockAssembler.SortForBlock | src/miner.cpp:419-429 | The package in the comparator's order, nothing lost or repeated |
| Miner.BlockAssembler.AddPackage | src/miner.cpp:553-569 | A fitting package enters as a whole, block and kept totals stay as promised |
| Miner.BlockAssembler.NextEntry | src/miner.cpp:472-508 | The entry the comparators pick: the next of the pool's order, or the best with kept totals if that is better or the pool is at its end; never one in the block, judged by totals never below what it needs, exact if it never failed |
| Miner.BlockAssembler.BestOf | src/miner.cpp:476-480 | The entry with kept totals that no other beats |
| Miner.BlockAssembler.Requeue | src/miner.cpp:639-650 | Exactly the waiting children return to the queue |
| Miner.BlockPromise | src/miner.cpp:149-197 | Those promises follow from what every step keeps |
| CompactBlock.Rebuilds | src/blockencodings.cpp:49-217 | If every known transaction that shares a short id with one of the block's is that transaction, then filling the slots of an accepted announcement with the missing transactions in order rebuilds the block exactly |
| CompactBlock.AnnounceDescribes | src/blockencodings.cpp:19-30 | The announcement made of a block is placeable and describes it |
| CompactBlock.PrefillIs | src/blockencodings.cpp:63-79 | Differential indexes put every prefilled transaction in its own slot, in order, and nothing elsewhere |
| CompactBlock.RebuiltIff | src/blockencodings.cpp:49-211 | A block whose short ids differ is rebuilt from its own announcement, whatever a node knows that is not ambiguous, if and only if it has at most 65536 transactions |
| CompactBlock.PlacesKeptIff | src/blockencodings.cpp:86-92 | The ids of an accepted announcement keep their places in 16 bits if and only if there are at most 65536 transactions |
| CompactBlock.WrapReplaces | src/blockencodings.cpp:119-127 | In a block of more, the transaction after the first 65536 has the place of the first and, when offered, replaces it although it was sent along |
| CompactBlock.WalkEndsIff | src/blockencodings.cpp:88-91 | The walk from the first id to a free slot ends if and only if fewer than 65536 transactions are prefilled; otherwise the 16-bit offset goes round for ever |
| CompactBlock.MatchingReady | src/blockencodings.cpp:118-188 | With at most 65536 transactions the slots after all offers are as an accepted announcement promises |
| CompactBlock.FreeComplete | src/blockencodings.cpp:89-92 | The walk over free slots misses none |
| CompactBlock.OfferKeeps | src/blockencodings.cpp:119-147 | Whatever transactions are offered in whatever order, a filled slot holds a known transaction with that slot's short id, prefilled slots are untouched and the count is exact |
| CompactBlock.ScanReady | src/blockencodings.cpp:149-188 | Slots scanned from pool and extra transactions are as an accepted announcement promises: prefilled ones in place, others as announced, count exact |
| CompactBlock.FillsIn | src/blockencodings.cpp:203-211 | Slots that agree with a block, completed from its missing transactions in order, give the block |
| Matches.KnownFills | src/blockencodings.cpp:118-188 | The only transaction the node knows with an announced id, in the pool once at most, in the extra ones any number of times, fills the slot of the id |
| Matches.KnownInPlace | src/blockencodings.cpp:118-188 | When no known transaction is ambiguous, every transaction of the block that the node knows ends in its own slot, so that only unknown ones are missing |
| Matches.ClashLeavesEmpty | src/blockencodings.cpp:118-147 | Two different transactions of the pool with one announced id leave its slot empty, whatever follows, unless the pool filled all slots before the second was looked at |
| Matches.ExtraLeavesEmpty | src/blockencodings.cpp:149-188 | So does an extra transaction that differs from the only one of the pool with its id |
| Matches.OfferSecond | src/blockencodings.cpp:129-141 | A second transaction for a slot empties it; an extra one that is the first again does not |
| Matches.FullCount | src/blockencodings.cpp:143-147 | The count the loops stop at means that all slots are filled |
| BlockEncodings.PartiallyDownloadedBlock.Place | src/blockencodings.cpp:63-79 | Accepts exactly the placeable announcements, and never writes outside the slots |
| BlockEncodings.PartiallyDownloadedBlock.SkipFilled | src/blockencodings.cpp:90-91 | With fewer than 65536 prefilled transactions the 16-bit offset stops at the next free slot and stays in bounds |
| BlockEncodings.PartiallyDownloadedBlock.Locate | src/blockencodings.cpp:86-114 | Every short id is mapped to its own free slot in 16 bits, and ids that collide are refused |
| BlockEncodings.PartiallyDownloadedBlock.TryOffer | src/blockencodings.cpp:122-141 | One offered transaction: fills, empties or leaves its slot |
| BlockEncodings.PartiallyDownloadedBlock.Match | src/blockencodings.cpp:118-147 | The loop, with its early exit, offers in order until the count is that of the ids |
| BlockEncodings.PartiallyDownloadedBlock.InitData | src/blockencodings.cpp:49-188 | Invalid exactly for the malformed announcements; when accepted, the slots are those the offers leave by 16-bit places, and with at most 65536 transactions every slot filled from pool or extra has the announced short id and the count is the number of those slots |
| BlockEncodings.PartiallyDownloadedBlock.FillBlock | src/blockencodings.cpp:196-231 | Fills the free slots in order; too few or too many missing transactions are invalid, and the object can only be used once |
| BlockEncodings.ReadIndexes | src/blockencodings.h:45-67 | The loops with the 16-bit offset compute the reading of the specification |
| BlockEncodings.ReadWords | src/blockencodings.h:47-58 | Making room for a thousand words at a time reads all of them, or fails exactly if one is above 16 bits |
| BlockEncodings.IndexesRoundTrip | src/blockencodings.h:60-74 | 16-bit indexes are read back as sent if and only if they increase; any others are refused |
| BlockEncodings.IncreasingIff | src/blockencodings.h:60-67 | Words are read as increasing indexes if and only if their sum and number stay within 16 bits, and then they are what those indexes are sent as |
| BlockEncodings.IndexesMayFall | src/blockencodings.h:60-67 | The offset wraps after index 65535, so 65535 followed by 0 is accepted although it does not increase |
| Cuckoo.RunKeeps | src/cuckoocache.h:262-457 | On every run, each stored element sits in one of its own eight slots and in no second one, slots that may not be reused hold elements, and only inserted elements are stored |
| Cuckoo.InsertKeeps | src/cuckoocache.h:368-418 | An insertion, after the epoch check, adds its element to those kept and loses at most one, possibly the element itself; which one is in CuckooEffects |
| Cuckoo.PlaceKeeps | src/cuckoocache.h:381-417 | The chain of displacements keeps that at any depth; where it leads is in CuckooEffects |
| Cuckoo.SwapKeeps | src/cuckoocache.h:405-413 | One displacement leaves the element in hand nowhere in the table |
| Cuckoo.PutKeeps | src/cuckoocache.h:383-389 | Taking a reusable slot loses no kept element |
| Cuckoo.EpochKeeps | src/cuckoocache.h:262-294 | The epoch check moves nothing, only ever frees slots, and none of the current epoch |
| Cuckoo.EraseKeeps | src/cuckoocache.h:446-457 | Erasing gives up the element's claim to its slot and nothing else |
| Cuckoo.FindsStored | src/cuckoocache.h:446-457 | Looking in the eight slots finds an element exactly if it is stored |
| Cuckoo.LookUpAnswers | src/cuckoocache.h:420-436 | A lookup only ever finds inserted elements, and one that erases is followed by one that still finds the element |
| CuckooEffects.InsertStores | src/cuckoocache.h:368-418 | If the displacements come to an element with a reusable place before the depth is used up, that element takes the first such place and nothing that was kept is lost |
| CuckooEffects.InsertLoses | src/cuckoocache.h:381-417 | If they go on for the whole depth, the element in hand at the end is lost, and no other |
| CuckooEffects.InsertFound | src/cuckoocache.h:368-418 | An element stored already, or with a reusable place among its own, is kept along with all that was, and the next lookup finds it |
| CuckooEffects.ChainExists | src/cuckoocache.h:381-417 | Every insertion has such a chain of displacements, each into the place after the one the element came from |
| CuckooEffects.NotBackIff | src/cuckoocache.h:390-408 | The element just put down is never the one taken up next, as the comment says, if and only if no place of the element in hand is followed, where it first occurs, by itself |
| CuckooEffects.ChainKeeps | src/cuckoocache.h:405-413 | Along the chain each element put down is put where the next one was, and no kept element is lost but the one in hand |
| CuckooEffects.EpochAges | src/cuckoocache.h:262-294 | When the countdown is over and the current epoch fills its size, the slots of older epochs become reusable and those of the current one old; otherwise only the countdown changes, to the greatest of one, a sixteenth of the size and what is missing to it |
| CuckooEffects.EpochStaysBounded | src/cuckoocache.h:262-294 | On every run the current epoch outgrows its size by at most a sixteenth of it, or one |
| CuckooCache.Cache.constructor | src/cuckoocache.h:315-329 | A new cache is empty, with every slot reusable |
| CuckooCache.Cache.Age | src/cuckoocache.h:278-282 | In place, one pass ages both kinds of entries |
| CuckooCache.Cache.CheckEpoch | src/cuckoocache.h:262-294 | In place, the epoch check of the specification |
| CuckooCache.Cache.Find | src/cuckoocache.h:375-380 | The first of the places that holds the element |
| CuckooCache.Cache.FindFree | src/cuckoocache.h:383-389 | The first of the places that may be reused |
| CuckooCache.Cache.Insert | src/cuckoocache.h:368-418 | In place, the insertion of the specification, whose effect is in CuckooEffects |
| CuckooCache.Cache.Displace | src/cuckoocache.h:381-417 | In place, the chain of displacements of the specification |
| CuckooCache.Cache.Contains | src/cuckoocache.h:446-457 | In place, the lookup of the specification |
| Radix.BytesFit | src/base58.cpp:87-90 | 138/100 symbols per byte plus one are enough for any bytes |
| Radix.SymbolsFit | src/base58.cpp:35-38 | 733/1000 bytes per symbol plus one are enough for any symbols |
| Radix.SameDigits | src/base58.cpp:23-120 | A digit string is determined by its number and its leading zeros |
| Base58.EncodeBase58 | src/base58.cpp:79-120 | The text stands for the same number as the bytes, with one leading 1 for each leading zero byte |
| Base58.DecodeBase58 | src/base58.cpp:23-77 | Accepts exactly the texts that are symbols between white space, and returns bytes the trimmed text is the encoding of |
| Base58.EncodeThenDecode | src/base58.cpp:23-120 | Every byte string decodes from its own encoding |
| Base58.DecodeThenEncode | src/base58.cpp:23-120 | Every accepted text is, without the white space around it, the encoding of what it decodes to |
| Base58.OneMeaning | src/base58.cpp:23-77 | No text encodes two byte strings |
| Base58.OneText | src/base58.cpp:79-120 | No byte string has two texts |
| Base58.MulAdd | src/base58.cpp:46-56 | The carry loop multiplies and adds in place; nothing is carried out, so the assertion holds |
| Base58.Convert | src/base58.cpp:91-111 | The digits of the same number in the other base, without leading zeros, in a buffer that suffices |
| Base58.Stripped | src/base58.cpp:66-69 | Skipping the leading zeros keeps the number |
| Base58.ReadSymbols | src/base58.cpp:39-58 | Stops at white space or at the first character that is no symbol |
| Base58.Finish | src/base58.cpp:66-76 | The leading ones and the buffer together give the bytes |
| Framing.ChunkingIndependent | src/net.cpp:699-754 | Any two ways to cut one byte stream both fail, or both leave the same messages, complete and partial, holding exactly the bytes received |
| Framing.ReceivedIsStream | src/net.cpp:699-754 | Receiving chunk by chunk equals receiving byte by byte |
| Framing.NothingLost | src/net.cpp:699-754 | The bytes held by the messages are the stream so far; all but the last message are complete |
| Framing.HeaderRun | src/net.cpp:782-811 | Header bytes taken in one go equal the same bytes one at a time, including the refusal |
| Framing.DataRun | src/net.cpp:813-828 | Data bytes taken in one go equal the same bytes one at a time |
| Net.ReadHeader | src/net.cpp:782-811 | Takes what the header still needs; a refusal means some prefix completes an oversized header |
| Net.ReadData | src/net.cpp:813-828 | Takes what the message still needs, never allocating more than 256 KiB ahead nor beyond its size |
| Net.Feed | src/net.cpp:715-731 | The bytes one call takes, for header or data, and when it refuses them |
| Net.Receiver.Open | src/net.cpp:707-711 | A new message exactly if the last one is complete |
| Net.Receiver.Take | src/net.cpp:706-751 | One round of the loop equals the bytes it takes one at a time |
| Net.Receiver.ReceiveMsgBytes | src/net.cpp:699-754 | The whole call equals absorbing the chunk byte by byte; complete is set exactly if some message was completed in this call |
| Messages.ParseEncoded | src/protocol.h:53-59 | A header parsed from its 24 bytes is the header that was encoded |
| Messages.EncodeParsed | src/protocol.h:53-59 | Every 24 bytes are the encoding of the header parsed from them |
| Messages.Arrives | src/net.cpp:699-828 | Messages sent one after the other arrive as the same messages, each whole and in order, if and only if none is larger than 32000000 bytes; otherwise the stream is refused |
| Messages.WireMore | src/net.cpp:2920-2949 | The header with the size of its data, then the data, join the stream |
| Messages.Delivered | src/net.cpp:699-2959 | Once the sender's queue is empty, however the stream was cut, the other end has exactly the messages pushed |
| Messages.OneArrives | src/net.cpp:699-828 | One more message after whole ones becomes one more packet, unless its header is refused |
| SendQueue.Sender.SocketSendData | src/net.cpp:839-902 | For any partial results and failures of the socket, bytes sent and unsent together stay all bytes pushed, the size is the sum of the queued sizes, and the assertions hold; a socket that takes all it is offered empties the queue, and one that does not take the first buffer whole sends just what it took |
| SendQueue.Sender.PushMessage | src/net.cpp:2920-2959 | The header and payload join the bytes pushed, and nothing is sent at once unless the queue was empty; then a socket that takes everything leaves nothing unsent |
| SendQueue.Sender.Send | src/net.cpp:849-898 | One call to the socket moves as many bytes from unsent to sent as it reports, none on failure; a buffer taken whole leaves the size and may end the pause |
| SendQueue.QueuedPush | src/net.cpp:2946-2949 | Queueing a buffer adds its bytes at the end |
| SendQueue.QueuedSend | src/net.cpp:877-890 | Sending some bytes of the first buffer moves them from unsent to sent, and drops the buffer when it is done |

## Left out

- Coins.RunRefines: additions and spends are calls on the top layer, as the node makes them; the best-block hash that travels with a flush is not modelled.
- CoinsView.CoinsViewCache.AddCoin: after a throw the memory total is short by the old coin, as in the code; the result that totals are exact does not cover that path.
- AccessByTxid, GetPriority, GetValueIn and the other readers on top of the coin cache would only add easy members.
- AddrManOps.RunKeeps: Select_ and GetChance are not among the operations, because they are floating point and end only with probability one.
- AddrManCheck.Check: ids count up from zero and slots lie inside the bucket arrays, as the object guarantees.
- AddrManager.Manager.Add: bucket groups are not modelled; the new and tried buckets of an address are arbitrary functions of it and its source, reduced to the number of buckets.
- AddrManDisk.Unserialize: loads into a new object, because Clear leaves the info table and the address index untouched; the records are read from a value, not from a stream of bytes, and what a stream that ends early leaves behind is not stated.
- AddrManRoundTrip.RoundTrip: the times of the last try and last counted attempt are not stored, so they come back as zero, and the time of the last success of any entry starts again at 1.
- CheckQueue.RunKeeps: only the master adds checks, and not while it waits, as the controller object does; 32-bit overflow of the counters, the destructors and worker interruption are not modelled.
- CheckQueue.MasterNotStranded: states who still has work, not that a fair scheduler lets it finish.
- Merkle.RoundTrip: transaction counts are unbounded, so the 32-bit wrap of the tree width near 2^32 transactions is not modelled.
- Merkle.PartialMerkleTree.constructor: for at least one transaction; the source would read past an empty list.
- RollingBloom.RollingBloomFilter.constructor: the number of word pairs and hash functions are parameters, because the source computes them in floating point; the false-positive rate is not stated.
- Work.CalculateNextWorkRequired: for intended timespans below 2^61 seconds, four times which a signed 64-bit number holds.
- GetNextWorkRequired's choice of the first block, GetNextCashWorkRequired, CheckProofOfWork and the ethash solver are not part of this model.
- Packages.TrackedAfter: size and operation totals; the modified fees kept beside them are in modules Fees, Scores and Miner.
- Scores.AlwaysBest: rates are compared by exact products; the source multiplies as doubles, which round products above 2^53. Entries the pool's order has passed without success are not looked at again, and those that failed are compared by totals that may be too high.
- Miner.BlockAssembler.CreateNewBlock: the coinbase transaction, header fields, interest and the final validity test are not modelled, and an entry's cached size is taken to be its serialized size.
- Miner.BlockAssembler.AddPackageTxs: fee rates are compared by exact products, as in Scores; the minimum rate is not negative.
- Miner.BlockAssembler.AddPriorityTxs: priorities are real numbers given by a function of the entry; the source computes them as doubles. Which of several equal ones comes off the heap first is arbitrary.
- Endings.NeverStops: for pools without fee deltas whose cached fees are exact; Fees says exactly when the kept ones are.
- Miner.BlockAssembler.constructor: for size limits of at least the 1000 bytes reserved and transactions of more than no bytes; the pool is a graph with exact ancestor sets and totals, its upkeep in txmempool.cpp is not part of this model.
- BlockEncodings.PartiallyDownloadedBlock.InitData: for announcements on which the code ends (CompactBlock.WalkEndsIff); the uneven-bucket test of the hash table is an arbitrary failure and extra_count is not modelled.
- BlockEncodings.PartiallyDownloadedBlock.Locate: for announcements on which the code ends, as InitData.
- BlockEncodings.PartiallyDownloadedBlock.SkipFilled: for announcements on which the code ends, as InitData.
- BlockEncodings.PartiallyDownloadedBlock.FillBlock: the verdict of CheckBlock is a parameter.
- BlockEncodings.ReadIndexes: the encoding of each word as a compact size is not modelled.
- Cuckoo.RunKeeps: one thread; the atomic bit packing of the flags and lookups concurrent with each other are not modelled, and size and depth limit are parameters because setup uses a floating point logarithm.
- Base58.DecodeBase58: texts are sequences without a terminating null character, and lengths whose buffer size overflows an int are not modelled; Base58Check is left out.
- Net.Receiver.ReceiveMsgBytes: what a refused chunk leaves behind is not stated, because the connection is dropped; message hashes, checks of magic and checksum, byte counts per command, receipt times and locks are not modelled.
- SendQueue.Sender.PushMessage: the header is given as 24 bytes, which Messages makes of a message; closing the socket on an error is one of the socket's arbitrary results.
- Messages.Arrives: for messages whose data has fewer than 2^32 bytes, so that the size field holds it; checksums are given, not computed.
- Matches.KnownFills: for announcements whose places fit 16 bits (CompactBlock.PlacesKeptIff).
- Chain.StepsBound: the source's comment speaks of 110 steps from simulation for 2^18 blocks; the bound proved there is 513.
- Chain.ActiveChain.GetLocator: lists block index entries instead of their hashes.
- FindEarliestAtLeast and GetBlockProofEquivalentTime are left out.
- Script evaluation, signatures, wallet, RPC and HTTP servers, disk databases, proxies and start-up code are not part of this model.
