# Verified model of a cryptocurrency node's state machines and codecs

A Dafny model of the parts of the node that keep their state consistent by careful
bookkeeping, or whose encodings must be reversible, with proofs of what they promise.
Each component is a module of its own; `dafny verify dfyconfig.toml` checks them all.

| component | files | main results |
|---|---|---|
| Address manager | `AddrManSpec`, `AddrManProofs`, `AddrManRuns`, `AddrManMeaning`, `AddrMan`, `AddrManFile`, `AddrManLoad`, `AddrManOutcome`, `AddrManContents`, `AddrManRestore`, `AddrManStore` | every run keeps the condition of `Check_`, and every entry holds what the calls about its address have told; saving and loading restores it; what any file loads into, and exactly which files give a manager that meets the condition |
| Coin cache | `CoinsData`, `Coins`, `CoinsCodec` | a stack of write-back caches is one plain map; records round-trip |
| Integers, amounts, scripts, outputs | `Serial`, `Compressor`, `AmountLimits` | unique encodings; round trips, and exactly which 64-bit amounts survive them |
| InstantSend | `InstantSendSpec`, `InstantSendSteps`, `InstantSendMeaning`, `InstantSend` | no two conflicting transactions are ever locked; six votes on every input, however they arrive, lock a transaction |
| Check queue | `CheckQueue` | `Wait` is exact for any number of threads and any interleaving, and returns unless threads enter or wake up for nothing for ever; no worker sleeps beside a queue that none is at |
| Base58 | `Radix`, `Base58` | decoding inverts encoding; the buffers always suffice |
| 256-bit numbers | `Limbs`, `ArithUint`, `Compact` | the word loops compute modulo 2^256; division is exact; compact targets |
| Block tree and chain | `ChainSkips`, `Chain` | skip search and how many links it follows, early stop, fork, locator |
| Governance votes | `Governance` | tallies do not depend on order |
| PrivateSend session | `Mixing`, `MixingMeaning`, `MixingSigs`, `MixingRuns` | what a safenode commits is what its users handed in; exactly which signatures it carries are valid for the coins it spends |
| Filters and caches | `Bloom`, `Nodes`, `CacheMap`, `CacheMultiMap` | no false negatives, and exactly which keys a filter finds; list, index and size agree |
| Shared | `Wrappers`, `Sets`, `Bits` | option type, finite sets, powers and bits |
| Examples | `KnownValues` | what the comments and tests of the repository give as examples comes out |

## How the model is laid out

Code that updates objects in place is modelled by classes with the same fields and loops.
Where the state is rich, the class has an abstract value (`Abs()`, `view`, `Contents()`,
`Value()`), each method is proved to change it as a function says, and what the source
promises is proved about that function. A method called `Good` on a class and a function
`Good` on its abstract state are the same operation in the two forms. The steps of InstantSend, whose
loops run over sets in any order, are relations between what it holds before and after.
Modules whose names end in `Meaning` say what such functions and relations come to without them.

What the node takes from outside is a parameter. Hashes, address groups and routability
are uninterpreted functions; random draws and clock readings are arguments; the answers of
the network, the mempool, the wallet and the safenode list are fields of an `Oracle`.

The check queue is a transition system: a state has the shared fields and the place of
every thread, and a step is one critical section, one evaluation, or one wake-up, spurious
ones included. Critical sections are methods of the class `CCheckQueue`.

A pruned coin record counts as absent, and the flags of an entry are read as claims about
the layer below: FRESH, that it has no unpruned record; not DIRTY, that it has the same.
While a child cache is in use, only its own calls may reach its parent.

## What the proofs turned up

Where the code does not do what its documentation suggests, the model follows the code.

- `Good_` with a time of zero or less leaves an entry that `Check_` rejects (`AddrManRuns.GoodTimes`).
- A file that names one IP address twice is read without an exception, and the manager it
  gives is not consistent (`AddrManOutcome.RepeatedAddress`); nor is that of one with a
  negative count, or with a tried entry that has no time of success. `AddrManOutcome.Harmless`
  says, from the contents of the file, exactly which files give a manager that passes `Check_`.
- `CheckAndRemove` of InstantSend forgets, per outpoint, who has voted, also for candidates
  that stay. A second vote of the same safenode on the outpoint is then counted for another
  transaction (`InstantSend.CheckAndRemoveForgets`; `CheckAndRemoveExact` says when the sweep
  is harmless). The safety results are about all the other steps.
- The voting rate check of governance objects compares with a time that is never set, so
  it fires in the first hour of 1970 only (`Governance.RateCheckIdle`). Votes with equal
  timestamps count in order of arrival (`Governance.TiesGoToTheLast`). A vote that is rejected
  can still change one tally, that of votes without an outcome: the empty instance entered
  for it counts there (`Governance.VoteMoves`).
- A mixing session can be opened for a negative number, such as -1, which is the mask of no
  outputs (`MixingMeaning.DenomOkIs`).
- The comment on variable-length integers gives bytes for 16511 and 65535 that the code does
  not write (`KnownValues.Integers`).
- The session check of entry denominations compares entries with each other and never with
  the session's denomination (`MixingRuns.FirstEntryDecides`, `MixingRuns.WrongDenomination`).
- A signature for mixing is checked with the script that came with its input, and the network
  carries none, so that every check is made with the empty script (`MixingRuns.ScriptsStayEmpty`).
  Of a signature that only pushes data that reads nothing of what is signed: if new, it is
  taken at any time and in whatever order the entries joined (`MixingRuns.ReceivedAccepted`),
  and the script of the coin is not run before the commit. Whether it is valid for its coin
  depends on what it was made on alone (`MixingSigs.CommittedHolds`): always if that is the
  merged transaction, never if it was made before all had joined (`MixingRuns.SignMerged`,
  `MixingRuns.SignEarly`). A transaction can be committed that carries no valid signature at
  all (`MixingRuns.SignNothing`). With the scripts of the coins, the check would depend on the
  order of joining, as it looks at entries that are not sorted (`MixingSigs.CheckedHolds`,
  `MixingSigs.MadeForCommitted`).
- `UpdateEmptyFull` of a Bloom filter without hash functions can lose what was inserted;
  `clear` makes a filter without bytes unusable if it has any (`Bloom.CBloomFilter.Clear`).
- `Insert` of a full `CacheMultiMap` drops the oldest item even when the new one is then
  refused as a duplicate.
- Flushing a cache that never learnt a best block wipes the one the layer below holds.
- `operator*=` applied to its own receiver gives zero.
- A negative version or height does not survive the coin record codec
  (`CoinsCodec.CoinsRoundTrip`), nor does every 64-bit amount (`AmountLimits.AmountComesBack`).
- Lists read from disk into the two caches are not checked: a repeated key or pair, or a
  wrong size, leaves index and list in disagreement (`RebuildIndex` of each says exactly when).
- `CAddrMan::Clear` leaves the id map and the address map alone, so that reading a file
  needs a new object.

## Model

| member | source | states |
|---|---|---|
| AddrManRuns.Run | src/addrman.cpp:380-454 | after any sequence of add, good, attempt, connected and get-address calls on a new manager, whatever their arguments and hash values, every structural condition of `Check_` holds: ids, address map, random order, both tables and their slots, the two counters, and reference counts equal to the slots held, between 1 and 8 for a new entry |
| AddrManRuns.RunTimes | src/addrman.cpp:393-422 | such a run with positive success times, and non-negative try times, also meets what `Check_` asks of the times |
| AddrManRuns.GoodTimes | src/addrman.cpp:196-243 | marking an address good keeps what `Check_` asks of the times if and only if the time given is positive or the address is unknown |
| AddrManRuns.RunKey | src/addrman.cpp:449-450 | a run ends with the key it began with, so the last condition of `Check_` holds where it held at the start |
| AddrManRuns.CountersAddUp | src/addrman.cpp:385-386 | in a consistent manager the random order is exactly as long as the two counters add up to |
| AddrManRuns.AddKeeps | src/addrman.cpp:245-311 | adding any address to a consistent manager fires no assertion and keeps it consistent |
| AddrManRuns.GoodKeeps | src/addrman.cpp:196-243 | marking any address good in a consistent manager fires no assertion and keeps it consistent |
| AddrManRuns.AttemptKeeps | src/addrman.cpp:313-330 | recording an attempt keeps the manager consistent |
| AddrManRuns.ConnectedKeeps | src/addrman.cpp:478-496 | recording a connection keeps the manager consistent |
| AddrManRuns.GetAddrKeeps | src/addrman.cpp:457-476 | answering a request for addresses keeps the manager consistent |
| AddrManRuns.MakeTriedOk | src/addrman.cpp:148-194 | in a consistent manager none of the assertions on the way through `MakeTried` fires, and the state between its two halves is consistent but for the entry in hand |
| AddrManRuns.MakeTriedFree | src/addrman.cpp:148-194 | moving a new entry to a free tried slot takes it out of every new slot, sets its reference count to zero, fills that one tried slot, shifts one from the new to the tried count and changes nothing else |
| AddrManRuns.MakeTriedTaken | src/addrman.cpp:148-194 | when the tried slot is taken its holder goes to its own home slot in the new table, the entry takes over the tried slot, and no other slot of either table changes |
| AddrManRuns.MakeTriedForgets | src/addrman.cpp:168-187 | in that case the only entry that can be forgotten is the holder of that home slot, and only if it had no other slot |
| AddrManRuns.LinkMeaning | src/addrman.cpp:289-310 | the end of `Add_`: the entry takes its slot when that is free or its holder may be displaced, forgetting a holder without another slot; otherwise the tables stay as they are and an entry without any slot is forgotten |
| AddrManRuns.AddMakesKnown | src/addrman.cpp:245-311 | a new address is known afterwards if and only if its slot was free or held by an entry that may be displaced, and then exactly that slot is filled |
| AddrManRuns.AddForgetsOnlyTerrible | src/addrman.cpp:289-310 | adding an address forgets no entry but one that is terrible and had a single slot in the new table |
| AddrManRuns.GetAddrMeaning | src/addrman.cpp:457-476 | the answer holds distinct known addresses, none terrible, no more than 23 percent of the entries or 2500, and leaves a good one out only when that limit is reached; only the random order changes |
| AddrManRuns.SelectFindsEntry | src/addrman.cpp:332-377 | `Select_` draws only from a table with an occupied slot, all of whose ids are known, and declines only when no such table is open to it |
| AddrManMeaning.AddKnown | src/addrman.cpp:253-286 | announcing a known routable address, in any consistent state: the entry's services become the bits of both; its time becomes that announced less the penalty, and no less than 0, if one is announced and the old time is 0 or older than the interval (an hour for an address seen within a day, else a day) and the penalty, and else stays; it takes one more slot exactly when it wants one (announced later than known, not tried, fewer than eight slots, and a draw of one in 2^slots) and that slot is free or held by another entry that is terrible; no entry is lost but that holder with its only slot |
| AddrManMeaning.AddUnknown | src/addrman.cpp:245-311 | announcing an unknown routable address makes an entry, with the next id and the time announced less the penalty, exactly when its slot is free or held by one that is terrible or has another slot, which loses that slot; an address that is not routable changes nothing |
| AddrManMeaning.TerribleIs | src/addrman.cpp:32-50 | an entry is terrible exactly if it was not tried in the last minute and has a time of 0, one more than ten minutes ahead or one more than thirty days back, or was tried three times without any success, or ten times with none in a week |
| AddrManMeaning.GoodMeaning | src/addrman.cpp:196-243 | marking a service good: nothing happens to one that is not known, and a tried entry does not move; a new one leaves every slot it had for its tried slot, whose holder goes back to its own slot of the new table, at the cost of one slot of the holder there, which is forgotten with its only one |
| AddrManMeaning.OthersMoveNothing | src/addrman.cpp:313-496 | attempts, connections and requests for addresses change neither table, forget nothing and make nothing known |
| AddrManMeaning.StepTells | src/addrman.cpp:196-496 | what any call does to the fields of any entry that stays, and which calls make an entry: only the announcement of a routable address that is not known |
| AddrManMeaning.RunTells | src/addrman.cpp:196-496 | so at every point of a run every entry was made by such an announcement, and its address, source, services, times, and counts are what the calls about it have told since |
| AddrManMeaning.AnyAnswer | src/addrman.cpp:457-476 | whatever distinct entries worth passing on are wished for, in whatever order, within the limit: some draws make the answer begin with them |
| AddrManMeaning.AnyPlacement | src/addrman.cpp:11-30 | whatever buckets and positions are wished for, among eight tried buckets of an address group chosen by the service, 64 new buckets of a source group chosen by both groups, and 64 positions for the table, bucket and service, some hash function gives them: nothing else decides |
| AddrManRuns.TriedBucketsPerGroup | src/addrman.cpp:11-16 | the addresses of one group spread over at most 8 tried buckets, however many there are |
| AddrManRuns.NewBucketsPerSourceGroup | src/addrman.cpp:18-24 | the addresses one source group reports spread over at most 64 new buckets, however many there are |
| AddrMan.CAddrMan.constructor | src/addrman.h:452-455 | a new manager is empty and consistent |
| AddrMan.CAddrMan.Clear | src/addrman.h:432-450 | empties both tables, the random order and the counters, and leaves the id map and the address map alone |
| AddrMan.CAddrMan.Find | src/addrman.cpp:74-85 | finds the id of an address exactly when the address is mapped to an id that has an entry |
| AddrMan.CAddrMan.Create | src/addrman.cpp:87-97 | the in-place creation gives the abstract one: a fresh id, entry, address mapping and last place in the random order |
| AddrMan.CAddrMan.SwapRandom | src/addrman.cpp:99-117 | swaps two places of the random order in place and updates both entries that stand there |
| AddrMan.CAddrMan.Delete | src/addrman.cpp:119-131 | removes an entry from the id map, the address map and, by swapping it last, the random order, and takes one off the new count |
| AddrMan.CAddrMan.ClearNew | src/addrman.cpp:133-146 | empties one new slot, and deletes its holder when that was its last |
| AddrMan.CAddrMan.EraseFromNew | src/addrman.cpp:150-160 | the loop over the new buckets takes the entry out of every slot it holds and brings its count to zero |
| AddrMan.CAddrMan.EvictTried | src/addrman.cpp:168-187 | the holder of a tried slot goes back to its home slot in the new table, which is cleared first |
| AddrMan.CAddrMan.MakeTried | src/addrman.cpp:148-194 | the loops and assignments, on two-dimensional arrays, give the abstract move to the tried table; no assertion fires |
| AddrMan.CAddrMan.FindNewBucket | src/addrman.cpp:220-231 | the search round the ring of buckets, from a random one on, always finds a bucket that holds the entry, so the branch for none is never taken |
| AddrMan.CAddrMan.Good | src/addrman.cpp:196-243 | marking an address good, in place, is the abstract step and keeps the manager consistent |
| AddrMan.CAddrMan.Add | src/addrman.cpp:245-311 | adding an address, in place, is the abstract step, keeps the manager consistent, and returns true exactly when the address was routable and not known |
| AddrMan.CAddrMan.Attempt | src/addrman.cpp:313-330 | recording an attempt, in place, is the abstract step and keeps the manager consistent |
| AddrMan.CAddrMan.Connected | src/addrman.cpp:478-496 | recording a connection, in place, is the abstract step and keeps the manager consistent |
| AddrMan.CAddrMan.GetAddr | src/addrman.cpp:457-476 | the in-place shuffle gives the abstract answer and keeps the manager consistent |
| AddrMan.Calls | src/addrman.cpp:148-496 | any calls, one after the other, on a new object leave it in the state that the results about runs are about |
| AddrManOutcome.LoadedOutcome | src/addrman.h:330-425 | for every file that holds what it announces, whatever its version, counts, bucket lists and collisions: tables, counters and address map of the manager it gives are right if and only if neither count is negative and no entry that stays shares its IP address with another entry that is read; its times are right if and only if no new entry that stays has a negative time of success and every tried one that is read has a positive one. Which entries stay and are read is told from the file: a tried one if it is the first in its slot, a new one if the bucket lists give its index a slot or, where they cannot be used, if it is the first in its home slot |
| AddrManOutcome.Harmless | src/addrman.h:330-425 | so the files that give a manager which passes everything `Check_` looks at are exactly those with counts that are not negative, a key that is not null, and those conditions on addresses and times |
| AddrManOutcome.LoadedConsistent | src/addrman.h:330-425 | so a file without negative counts that names no IP address twice gives a manager whose tables, counters and address map are right |
| AddrManOutcome.RepeatedAddress | src/addrman.h:358-389 | a file with a new and a tried entry of one IP address: it is read, both entries stay, and the manager is not consistent |
| AddrManLoad.PruneIs | src/addrman.h:409-419 | pruning leaves exactly the entries that are tried or have a reference, takes the addresses of the others out of the address map, and changes nothing else but random positions |
| AddrManRestore.FileRoundTrip | src/addrman.h:280-425 | reading back the file of a consistent manager prunes nothing and gives the same manager under new ids: key, both tables slot by slot, counters, reference counts, address map and the persisted fields of every entry |
| AddrManContents.DumpHeader | src/addrman.h:280-300 | a file written begins with version 1, key size 32, the key, the two counters, and 1024 with bit 30 flipped |
| AddrManContents.CurrentIs | src/addrman.h:330-351 | the bucket lists of a file are used exactly if its version is 1 and it announces 1024 buckets |
| AddrManContents.LoadedContents | src/addrman.h:330-425 | what any file without negative counts becomes: its key, exactly the entries that are tried or listed, with the fields written of them, each in the slot that its bucket list or its home gives, the first of those that contend for one |
| AddrManStore.Serialize | src/addrman.h:279-327 | the loops write exactly the abstract file of the manager |
| AddrManStore.Unserialize | src/addrman.h:330-425 | on an object with empty maps, reading raises an exception exactly for a wrong key size, with the tables already cleared, and for a stream that ends early, with everything it held entered, the counters as it announces them and nothing pruned; any other file gives the abstract result of loading and pruning, and an object that is consistent exactly when `LoadedOutcome` says so |
| AddrManOutcome.PartialOutcome | src/addrman.h:351-394 | a stream that ends before its entries are complete leaves a manager that is not consistent |
| AddrManStore.PruneAll | src/addrman.h:409-419 | the loop is the abstract pruning: it deletes, in id order, the entries left without a reference |
| AddrManStore.SaveAndRestore | src/addrman.h:280-425 | writing one manager and reading it into a new object restores it, as an executable sequence of the two methods |
| CoinsCache.CoinsViewDB.BatchWrite | src/txdb.cpp:55-76 | writes the dirty entries and erases the pruned ones, so that the database stands for what the cache stood for; a null best block is not written |
| CoinsCache.CoinsViewCache.OnDB | src/coins.cpp:61-61 | a new cache over a database stands for what the database holds |
| CoinsCache.CoinsViewCache.OnCache | src/coins.cpp:61-61 | a new cache over another stands for what that one stands for, to any depth |
| CoinsCache.CoinsViewCache.FetchCoins | src/coins.cpp:72-88 | finds a record exactly when this layer or one below has an entry for it, be it pruned; what it finds it inserts clean, and fresh only if pruned, changing no entry here and no view of any layer |
| CoinsCache.CoinsViewCache.GetCoins | src/coins.cpp:90-97 | the record returned is the view's, a pruned one counting as none; no view changes |
| CoinsCache.CoinsViewCache.HaveCoins | src/coins.cpp:138-145 | true exactly when the view has an unpruned record |
| CoinsCache.CoinsViewCache.ModifyCoins | src/coins.cpp:99-118 | opens a modifier on the view's record with flags that are right with respect to the layer below; the view does not change |
| CoinsCache.CoinsViewCache.SetModified | src/coins.cpp:284-296 | replacing the record through the open modifier changes the view at that id only |
| CoinsCache.CoinsViewCache.CloseModifier | src/coins.cpp:284-296 | closing the modifier, which may drop the entry, leaves the view as it was and the accounting equal to the sum over the entries |
| CoinsCache.CoinsViewCache.ModifyNewCoins | src/coins.cpp:120-127 | the fresh entry makes the view forget the record; the layer is consistent afterwards if and only if the layer below has nothing for the id and a record replaced in this cache had no usage |
| CoinsCache.NewEntryExact | src/coins.h:429-438 | the flags of such an entry are right if and only if the layer below has nothing for the id, and the accounting stays right if and only if a replaced record had no usage; dropping the entry shows the layer below again |
| CoinsCache.CoinsViewCache.Uncache | src/coins.cpp:214-221 | drops an entry that is neither dirty nor fresh and no other; the view does not change |
| CoinsCache.MergeKeeps | src/coins.cpp:162-205 | case by case over the flags of child and parent: the merged or dropped parent entry gives the child's record, and its flags are right with respect to the grandparent |
| CoinsCache.MergeIs | src/coins.cpp:166-199 | what the merged entry is: the child's record, dirty, and fresh exactly when the parent's entry was, or there was none and the child's was; none when that leaves a fresh pruned record |
| CoinsCache.CoinsViewCache.BatchWrite | src/coins.cpp:162-205 | after taking over a child's entries, in any order, the parent stands for exactly what the child stood for, its own flags are right with respect to the grandparent, which is untouched, the usage is still the sum over the entries, and every slot is the parent's entry merged with the child's dirty one |
| CoinsCache.CoinsViewCache.MergeEntry | src/coins.cpp:166-199 | one turn of that loop: the slot becomes the merged one and the view changes at that id only |
| CoinsCache.CoinsViewCache.Flush | src/coins.cpp:207-212 | the layer below then stands for what this one stood for; the best block reported survives if and only if this layer has one, or the layer below is the database or has none or the same as what lies beneath it |
| CoinsCache.CoinsViewCache.GetBestBlock | src/coins.cpp:152-156 | returns the best block of this layer if it has one, else what the layer below returns, and keeps it here, without changing what any layer reports or anything else |
| CoinsCache.AgreesUnique | src/coins.h:376-390 | the entries of a cache and the layer below determine one view, so the plain map a stack stands for is well defined |
| CoinsCache.TotalSplit | src/coins.h:389-395 | the sum of usages does not depend on the order of the entries |
| CoinsData.Cleanup | src/coins.h:113-118 | the loop pops exactly the trailing spent outputs |
| CoinsData.CleanedSame | src/coins.h:113-118 | cleaning up changes no output that is available, is idempotent, and empties a record exactly when it is pruned |
| CoinsData.Spend | src/coins.cpp:35-42 | spends exactly the output asked for, fails and changes nothing when it is not available, and leaves the record clean |
| CoinsCodec.CalcMaskSize | src/coins.cpp:17-33 | the bytes up to the last non-zero mask byte, which no other size satisfies, and the number of non-zero ones among them |
| CoinsCodec.MaskSizeUnique | src/coins.cpp:17-33 | there is only one mask size that covers every unspent output and ends in a non-zero byte |
| CoinsCodec.Serialize | src/coins.h:179-205 | the loops write the version, the header code, the mask, the unspent outputs and the height as specified; the assertion never fires on an unpruned record |
| CoinsCodec.Unserialize | src/coins.h:208-239 | the loops read any bytes as specified, raising on the same inputs |
| CoinsCodec.CoinsRoundTrip | src/coins.h:179-239 | what any storable record, of any number of outputs with any 64-bit amounts and any 32-bit version and height, is read back as from its bytes, whatever follows them; apart from the scripts of spent outputs it is the same record if and only if neither its version nor its height is negative and each of its amounts survives compression, and each available output comes back as it was if and only if its amount does |
| KnownValues.FirstRecord | src/coins.h:38-52 | the first example of a record in the comment, byte for byte, for any hash in it |
| KnownValues.SecondRecord | src/coins.h:55-73 | the second, a coinbase with two of seventeen outputs unspent, byte for byte, for any hashes |
| Serial.WriteVarInt | src/serialize.h:355-370 | writes the specified base-128 digits; its buffer is large enough for the width |
| Serial.ReadVarInt | src/serialize.h:372-384 | reads as specified, with the wrap-around of the type's width, and raises past the end |
| Serial.VarIntRoundTrip | src/serialize.h:326-384 | a fixed-width read of the written form of any integer gives it modulo 2 to the width, and the integer itself when it fits |
| Serial.UniqueEncoding | src/serialize.h:330-334 | bytes that read as an integer are its written form: every integer has exactly one encoding |
| Serial.EncodeParsed | src/serialize.h:332-334 | no redundancy: whatever can be read, from any bytes, is an encoded integer followed by the rest |
| Serial.ReadWraps | src/serialize.h:372-384 | reading with wrap-around after every step is reading exactly and reducing at the end |
| Serial.SignedRoundTrip | src/coins.h:187-213 | what the varint of a 32-bit signed integer is read back as: the integer if and only if it is not negative, else its lowest seven bits |
| KnownValues.Integers | src/serialize.h:334-339 | the examples in the comment, but that the code writes 16511 in two bytes where the comment gives three, and 65535 as 82 FE 7F where it gives 82 FD 7F |
| Compressor.CompressAmount | src/compressor.cpp:142-159 | the loop computes the specified compact form modulo 2^64 |
| Compressor.DecompressAmount | src/compressor.cpp:161-185 | the loop computes the specified amount modulo 2^64 |
| Compressor.AmountsMatch | src/compressor.cpp:133-185 | without a limit on size the two amount functions are inverse to each other in both directions |
| Compressor.CompactFormIs | src/compressor.cpp:133-159 | the compact form of m with e zeros after it, at most nine and, unless they are nine, all there are: 1 + 10(9(m / 10) + m % 10 - 1) + e, or 1 + 10(m - 1) + 9 for nine |
| AmountLimits.AmountComesBack | src/compressor.cpp:142-185 | for every 64-bit amount: the 64-bit functions give it back if and only if it is a multiple of ten or 9n + n%10 - 9 is below 2^64 |
| AmountLimits.CompactComesBack | src/compressor.cpp:142-185 | for every 64-bit compact form: they give it back if and only if it is zero or its mantissa times its power of ten is below 2^64 |
| KnownValues.Amounts | src/test/compress_tests.cpp:42-47 | the compact forms that the tests give for 0, one unit, a hundredth of a coin, one coin, fifty and 21 million coins |
| Compressor.AmountFits | src/compressor.cpp:133-159 | a compact form is at most 9n+9, so every amount up to the money supply fits |
| Compressor.Decompress | src/compressor.cpp:88-131 | the in-place rebuilding of the special scripts gives the specified bytes, and none exactly when a key does not decompress |
| Compressor.ScriptRestored | src/compressor.cpp:48-131 | decompressing what a script compresses to gives back every byte |
| Compressor.CompressedExactly | src/compressor.cpp:10-77 | a script has a special form exactly when it is one of four, in literal bytes, and which: payment to a key hash (0x76 0xa9 20 h 0x88 0xac, form 0 h), to a script hash (0xa9 20 h 0x87, form 1 h), to a compressed key (33 k 0xac with k[0] 2 or 3, form k), and to a full key (65 k 0xac with k[0] 4 and k valid, form 4 or 5 by its parity and its first coordinate) |
| Compressor.FormRestored | src/compressor.cpp:48-131 | the other direction: compressing what a special form decompresses to gives the form back, for sizes 0 to 3 always, and for 4 and 5 exactly when the key is valid and shortens to the one it came from |
| Compressor.ScriptFraming | src/compressor.h:66-76 | a script with a special form is written as that form alone, 21 or 33 bytes; any other as its length plus six and its bytes |
| Compressor.ScriptParses | src/compressor.h:78-91 | what any bytes are read as: after a size of 0 or 1, 20 bytes of a hash; of 2 to 5, 32 bytes of a key; of more, a raw script of six less; and nothing where bytes are missing or a key does not decompress |
| Compressor.ScriptRoundTrip | src/compressor.h:66-91 | the framed form of every script, special or not, is read back, whatever follows it |
| Compressor.WriteScript | src/compressor.h:66-76 | writes the special form when there is one, as `CompressedExactly` says, and the length-prefixed form otherwise |
| Compressor.ReadScript | src/compressor.h:78-91 | reads the framed form as specified, for any bytes |
| Compressor.WriteTxOut | src/compressor.h:108-120 | writes the compact amount and the framed script |
| Compressor.ReadTxOut | src/compressor.h:108-120 | reads the compact amount and the framed script, for any bytes |
| Compressor.TxOutRoundTrip | src/compressor.h:108-120 | an output of any 64-bit amount is read back from its bytes with its script and the amount that the 64-bit functions give back |
| AmountLimits.OutComesBack | src/compressor.h:108-120 | it is read back as it was if and only if its amount, modulo 2^64, is a multiple of ten or has a compact form that fits; every valid amount is such a one |
| InstantSendSpec.EligibleSize | src/instantx.h:200-201 | at most ten safenodes are eligible for an outpoint |
| InstantSendSpec.NoTwoReady | src/instantx.h:200-214 | with one vote each and at most ten eligible, two candidates that spend the same outpoint never both have six votes on it |
| InstantSendSpec.ReadyMeetsNoLock | src/instantx.cpp:449-464 | in a consistent state a ready candidate finds no completed lock of another on any outpoint it shares |
| InstantSendSpec.CandidatesAre | src/instantx.h:200-214 | candidates of the same requests are the same once they have the same votes: every vote is stored in its own place |
| InstantSendSteps.WaitingIsCounted | src/instantx.cpp:364-375 | once a request is taken, the safenode of every valid vote waiting for one of its inputs, which voted there for nothing else, has its vote counted for it |
| InstantSendSteps.SixVotesLock | src/instantx.cpp:74-125 | so with six such votes waiting for every input, the request alone ends with the transaction locked, if it meets no conflict elsewhere |
| InstantSendSteps.SixthVoteLocks | src/instantx.cpp:253-316 | and with a request known, the vote that makes it six for every input does |
| InstantSendSteps.LockNeedsSix | src/instantx.cpp:408-421 | a lock rests on six votes for every input, each of one of the ten safenodes eligible there |
| InstantSendSteps.CompletedLocks | src/instantx.cpp:408-464 | completing a ready candidate that meets no conflict elsewhere finds no lock of another on its inputs and leaves it with all of them |
| InstantSendSteps.CompletedElse | src/instantx.cpp:408-464 | completing a locked candidate changes nothing, and completing one locks no other |
| InstantSendMeaning.CompletedWhen | src/instantx.cpp:408-464 | locks change only for a candidate with six votes on every input that meets no conflict elsewhere, and then they are joined by all its inputs |
| InstantSendSteps.RequestedIs | src/instantx.cpp:74-125 | making the candidate, casting this node's votes, offering every waiting vote and completing the candidate is what `Requested` says of the state before and after |
| InstantSendMeaning.TakenWhen | src/instantx.cpp:74-125 | a request is taken exactly when none of its inputs is locked and it is valid, its outputs having to be unspent unless six votes wait for every input |
| InstantSendMeaning.NewVotes | src/instantx.cpp:74-125 | every vote gained then is its safenode's first on the outpoint, of one of the ten eligible, and either this node's, on an input it knows and can sign for, or a valid one that waited |
| InstantSendMeaning.NewLocks | src/instantx.cpp:74-125 | every lock gained then is of a candidate with six votes on every input that meets no conflict elsewhere; none goes or changes |
| InstantSendMeaning.CastWhen | src/instantx.cpp:153-250 | this node votes only as a safenode, where it is eligible, knows the output, can sign, and has voted for no candidate, and remembers just the votes it casts |
| InstantSendMeaning.CountedWhen | src/instantx.cpp:253-362 | a vote on a candidate counts exactly when it is valid, of one of the ten eligible safenodes, for one of the inputs, and the first of its safenode there for any candidate; then it is the only vote gained, and locks come only for that candidate |
| InstantSendMeaning.VoteWaits | src/instantx.cpp:253-316 | a valid vote on a transaction without a candidate waits afterwards, and that is all, unless its request is known with six votes waiting for every input; one that is not valid changes nothing |
| InstantSend.CInstantSend.constructor | src/instantx.h:36-58 | a new manager is consistent and has no candidates, votes, waiting votes or locks |
| InstantSend.CInstantSend.AddVote | src/instantx.cpp:1110-1115 | adds a vote to its candidate exactly when its outpoint is the candidate's and the safenode has not voted on it there, and changes nothing else |
| InstantSend.CInstantSend.IsAllOutPointsReady | src/instantx.cpp:1117-1127 | true exactly when there is an outpoint and every one has six votes |
| InstantSend.CInstantSend.FindVote | src/instantx.cpp:190-211 | searching only the candidates named for the outpoint finds a vote of the safenode whenever any candidate has one |
| InstantSend.CInstantSend.CreateTxLockCandidate | src/instantx.cpp:127-151 | a valid request without a candidate gets one, with no votes, and nothing else changes |
| InstantSend.CInstantSend.CastVotes | src/instantx.cpp:153-250 | this node's votes, and no other change, are those that `CastWhen` allows; when nothing stops it, it has then voted on every outpoint it is eligible for |
| InstantSend.CInstantSend.CountVote | src/instantx.cpp:318-350 | a vote on a known candidate is counted exactly when the outpoint is the candidate's and the safenode has voted on it for no candidate |
| InstantSend.CInstantSend.ProcessTxLockVote | src/instantx.cpp:253-362 | the whole effect of a vote: counted or not on a candidate (`CountedWhen`), waiting without one (`VoteWaits`), or making a known request be processed again; the invariant is kept |
| InstantSend.CInstantSend.ProcessOrphanTxLockVotes | src/instantx.cpp:364-375 | every vote that waited has been offered: each valid one for an input of its candidate has its safenode's vote on that outpoint, counted now or earlier; what is counted now, or of an unknown transaction and not spamming, waits no more, and all else still waits; votes, locks and marks gained are those of votes offered |
| InstantSend.CInstantSend.ProcessTxLockRequest | src/instantx.cpp:74-125 | answers whether the request is taken (`TakenWhen`); one that is not changes nothing, and for one that is the whole effect is that of `Requested`: candidate, own votes, waiting votes offered, locks; the invariant is kept |
| InstantSend.CInstantSend.ReceiveVote | src/instantx.cpp:54-71 | a vote message that is new is remembered and processed, one seen before changes nothing |
| InstantSend.CInstantSend.IsEnoughOrphanVotesForTxAndOutPoint | src/instantx.cpp:390-406 | true exactly when six waiting votes are for the outpoint of the transaction |
| InstantSend.CInstantSend.TryToFinalizeLockCandidate | src/instantx.cpp:408-421 | the locks afterwards are those of before and, for a ready candidate without outside conflict, all its outpoints; nothing else changes |
| InstantSend.CInstantSend.LockTransactionInputs | src/instantx.cpp:449-464 | a ready candidate takes every outpoint that is free; no lock is reassigned |
| InstantSend.CInstantSend.IsLockedInstantSendTransaction | src/instantx.cpp:707-730 | true exactly when the feature is on and every outpoint of the candidate is locked by it |
| InstantSend.CInstantSend.AcceptLockRequest | src/instantx.cpp:655-659 | remembers a request under its hash, unless one is there already, and touches nothing the invariant looks at |
| InstantSend.CInstantSend.RejectLockRequest | src/instantx.cpp:661-665 | remembers a refused request under its hash, unless one is there already, and touches nothing the invariant looks at |
| InstantSend.CInstantSend.CheckAndRemove | src/instantx.cpp:581-632 | the loops take away the expired candidates with their requests, and the marks and locks of all their outpoints, and the expired votes; a consistent object stays so exactly when `CheckAndRemoveExact` says |
| InstantSend.CheckAndRemoveExact | src/instantx.cpp:581-607 | the sweep keeps the invariant if and only if no candidate that stays holds a vote on an outpoint of one that goes, and no outpoint that stays names one that goes |
| InstantSend.CheckAndRemoveForgets | src/instantx.cpp:581-607 | a run of a new manager with a lawful ranking: three requests that spend one outpoint, a vote for the first, the sweep when the second has expired, and a vote of the same safenode for the third, which is counted as well, so that the safenode counts twice |
| CheckQueue.CCheckQueue.Add | src/checkqueue.h:146-158 | appends the checks, counts them, and wakes one worker for one and all for more, as `AddsWakes` says of the whole system |
| CheckQueue.CCheckQueue.Section | src/checkqueue.h:77-120 | the critical section of a turn of the loop — clean up, then leave, wait or take a batch — as one atomic step of the transition system |
| CheckQueue.CCheckQueue.WakeSection | src/checkqueue.h:91-119 | the critical section entered when a wait ends |
| CheckQueue.IdleExactly | src/checkqueue.h:164-168 | with the master outside `Wait`, `IsIdle` is true if and only if every check of the round has been evaluated and holds; with none outstanding the queue is empty and no thread holds a check |
| CheckQueue.IdleWhenSettled | src/checkqueue.h:185-193 | so whenever a round may begin, the assertion that the queue is idle holds |
| CheckQueue.NextKeeps | src/checkqueue.h:69-158 | every step of any thread, for any number of threads, keeps the invariant: outstanding checks are those queued plus those held, idle and total count the threads, and the verdict reflects the round |
| CheckQueue.AddsWakes | src/checkqueue.h:146-158 | after adding one check some worker that waited, if any, is woken, after more all of them are; the checks are queued and counted, and no other thread is touched |
| CheckQueue.RunServed | src/checkqueue.h:69-158 | in every reachable state with checks queued, some worker is inside and not asleep, if any worker is asleep |
| CheckQueue.SectionEnds | src/checkqueue.h:77-120 | how a critical section ends: with work exactly while checks are queued, else by returning exactly when nothing is left to do, for the master or on shutdown, else by waiting; and it notifies the master exactly when a worker reports the last check |
| CheckQueue.WaitIsExact | src/checkqueue.h:139-143 | in every run, `Wait` answers true if and only if every check added since it last returned holds, and leaves nothing behind for the next round |
| CheckQueue.MasterIsNotForgotten | src/checkqueue.h:79-103 | whenever the master sleeps unnotified, the queue is empty and some worker holds a non-empty batch that is still counted as outstanding |
| CheckQueue.BatchBounds | src/checkqueue.h:105-119 | a batch has at least one check, is the largest within the batch size that leaves as much for each thread inside and each idle one, is cut off the end of the queue, last first, nothing lost or doubled, and is evaluated only as long as no check is known to have failed |
| CheckQueue.OwnStepsRunOut | src/checkqueue.h:76-126 | every step but adding checks, entering and spurious wake-ups lowers a measure, so only finitely many follow one another |
| CheckQueue.SomeoneCanStep | src/checkqueue.h:76-126 | while the master is in `Wait` some thread can take such a step |
| CheckQueue.WaitReturns | src/checkqueue.h:76-126 | in every run, from any state on: while the master stays in `Wait` a step of a thread by itself is possible, and once more steps are taken than the measure and three times the number of entering threads and spurious wake-ups, it has left |
| CheckQueue.WakeUpsForNothing | src/checkqueue.h:91-104 | those have to be counted: a worker woken for nothing goes back to sleep and leaves the state as it was |
| Radix.ShiftIn | src/base58.cpp:40-52 | the carry loop multiplies a big-endian buffer and adds a digit in place; given room, no carry is left over |
| Radix.EncodeRoom | src/base58.cpp:76-77 | n bytes never need more than n*138/100+1 base-58 digits, for every n |
| Radix.DecodeRoom | src/base58.cpp:33-34 | n base-58 digits never need more than n*733/1000+1 bytes, for every n |
| Base58.EncodeBase58 | src/base58.cpp:67-100 | the nested loops compute the specified text: a one for every leading zero byte, then the digits of the number |
| Base58.DecodeBase58 | src/base58.cpp:21-65 | the nested loops decode any text as specified: white space at either end is skipped, anything else outside the alphabet is refused |
| Base58.RoundTrip | src/base58.cpp:21-100 | every byte sequence is decoded from its encoding |
| Base58.DecodesIff | src/base58.cpp:21-100 | a text decodes to some bytes if and only if, white space at its ends aside, it is their encoding, and it decodes to something if and only if, so trimmed, it is over the alphabet |
| Base58.DecodesAround | src/base58.cpp:21-100 | a text decodes to some bytes if and only if it is their encoding between any tabs, line feeds, vertical tabs, form feeds, carriage returns and blanks |
| Base58.AlphabetChars | src/base58.cpp:18-19 | the alphabet has exactly the alphanumeric characters but 0, I, O and l, in the order of their codes |
| KnownValues.Texts | src/test/data/base58_encode_decode.json:2-13 | three texts of the test data, and that zero bytes become as many ones |
| Base58.EncodeBase58Check | src/base58.cpp:112-119 | encodes the bytes with the first four bytes of their hash |
| Base58.DecodeBase58Check | src/base58.cpp:121-136 | the steps of the check give the specified result |
| Base58.CheckIff | src/base58.cpp:112-136 | a text passes the check with some content if and only if it decodes to that content and the first four bytes of its hash; that is, trimmed, it is the checked encoding of it |
| ArithUint.BaseUint.Of | src/arith_uint256.h:55-63 | a 64-bit number is stored as itself |
| ArithUint.BaseUint.Assign | src/arith_uint256.h:94-101 | assigning a 64-bit number overwrites every word |
| ArithUint.BaseUint.Negated | src/arith_uint256.h:83-90 | complementing every word and adding one is negation modulo 2^256 |
| ArithUint.BaseUint.AddAssign | src/arith_uint256.h:141-151 | adds modulo 2^256, also to itself |
| ArithUint.BaseUint.SubAssign | src/arith_uint256.h:153-157 | subtracts modulo 2^256, also from itself |
| ArithUint.BaseUint.Increment | src/arith_uint256.h:179-186 | adds one modulo 2^256 |
| ArithUint.BaseUint.Decrement | src/arith_uint256.h:196-203 | subtracts one modulo 2^256 |
| ArithUint.BaseUint.MulAssign32 | src/arith_uint256.cpp:58-67 | multiplies by a 32-bit number modulo 2^256 |
| ArithUint.BaseUint.MulAssign | src/arith_uint256.cpp:70-83 | multiplies modulo 2^256, and gives zero when the argument is the receiver, which is cleared first |
| ArithUint.BaseUint.ShiftLeft | src/arith_uint256.cpp:24-38 | multiplies by a power of two modulo 2^256, for any shift |
| ArithUint.BaseUint.ShiftRight | src/arith_uint256.cpp:41-55 | divides by a power of two, rounding down, for any shift |
| ArithUint.BaseUint.DivAssign | src/arith_uint256.cpp:86-109 | the shift-and-subtract loop gives the exact quotient rounded down for every non-zero divisor, also of itself by itself; zero raises an error with the receiver already cleared |
| ArithUint.BaseUint.CompareTo | src/arith_uint256.cpp:112-121 | the order of the words from the top is the order of the numbers |
| ArithUint.BaseUint.BitLength | src/arith_uint256.cpp:174-186 | the number of bits: the only n with 2^(n-1) <= value < 2^n, zero for zero |
| ArithUint.BaseUint.GetLow64 | src/arith_uint256.h:247-251 | the number modulo 2^64 |
| Compact.SetCompact | src/arith_uint256.cpp:206-224 | the value is mantissa*256^(size-3) modulo 2^256; negative is reported for a signed non-zero word |
| Compact.OverflowIs | src/arith_uint256.cpp:219-221 | the size and mantissa tests of the code report overflow if and only if the exact value is at least 2^256 |
| Compact.GetCompact | src/arith_uint256.cpp:226-247 | writes the normalised size, mantissa and sign, and neither assertion fires |
| Compact.SqueezeFits | src/arith_uint256.cpp:241-243 | the mantissa of any 256-bit number is below the sign bit and its size fits its byte; no more than the top byte of the mantissa is unused, unless the number is zero |
| Compact.Rounds | src/arith_uint256.cpp:226-247 | the compact form never exceeds the number and falls short by less than one unit of the mantissa kept |
| Compact.SqueezeIdempotent | src/arith_uint256.cpp:206-247 | the number a compact form stands for has that same compact form |
| Compact.CompactRoundTrip | src/arith_uint256.cpp:206-247 | writing a 256-bit number and reading it back gives the fields as written, no overflow, and the same compact form again |
| KnownValues.Targets | src/test/arith_uint256_tests.cpp:412-533 | what the tests read compact targets as |
| KnownValues.Forms | src/test/arith_uint256_tests.cpp:412-533 | the compact forms that the tests write |
| ChainSkips.LowestOneCleared | src/chain.cpp:64-65 | clears the lowest one bit and no other |
| ChainSkips.SkipHeights | src/chain.cpp:67-76 | which height every height skips to: an even one loses its lowest one bit, an odd one the two lowest but its last; below two it is 0 |
| ChainSkips.SkipsBack | src/chain.cpp:67-76 | the skip height of every height from one on is lower than it |
| ChainSkips.FewLinks | src/chain.cpp:67-102 | with all skip links set, going back fewer than 2^(n+1) blocks takes at most n^2/4 + 7n + 1 links, from any height to any other; 192 of them for 2^18 blocks |
| Chain.CBlockIndex.BuildSkip | src/chain.cpp:109-113 | a new block's skip link is its ancestor at the skip height, and the tree keeps the property the search relies on, and has all its skip links if it had them |
| Chain.CBlockIndex.GetAncestor | src/chain.cpp:78-102 | the search along skip links ends and finds the very block that walking back finds, at every height in range, and none out of range; with all skip links set it follows at most n^2/4 + 7n + 1 links back fewer than 2^(n+1) blocks |
| Chain.CChain.SetTip | src/chain.cpp:13-23 | from any consistent chain, stopping early leaves at every height the ancestor of the new tip |
| Chain.CChain.FindFork | src/chain.cpp:53-62 | finds the highest block that is in the chain and on the branch of the argument, and none only when no block of the branch is in the chain |
| Chain.CChain.SharedBelow | src/chain.cpp:53-62 | below the fork the branch and the chain are the same |
| Chain.CChain.GetLocator | src/chain.cpp:25-51 | lists the ancestors of the start, or of the tip when none is given, at the heights that `LocatorSteps` describes, down to the genesis block |
| Chain.LocatorSteps | src/test/skiplist_tests.cpp:85-99 | a locator begins with the start, goes back one block eleven times and then by steps that double, 2 first, and ends with the genesis block, strictly descending through ancestors, in no more blocks than twelve and the base-two logarithm of the height |
| Governance.CGovernanceObject.ProcessVote | src/governance-object.cpp:98-197 | the verdict and the new vote map are those specified for every input, with the empty record and instance that a rejected vote leaves behind |
| Governance.VerdictIs | src/governance-object.cpp:98-197 | each verdict and the exact condition for it, in terms of the vote, the safenode index, the times held and the checks of the node |
| Governance.VoteMoves | src/governance-object.cpp:98-197 | what any vote does to any tally: an accepted one decides for its safenode and signal; no other changes a count but that of votes without an outcome, in which the empty instance entered for it counts |
| Governance.InvalidCountsForNothing | src/governance-object.cpp:170-183 | a vote that is not valid or cannot be added is never accepted and changes no tally of yes, no or abstain |
| Governance.HeldWasBrought | src/governance-object.cpp:98-197 | after any sequence of events, an instance held that is not empty is of a vote among them, of that safenode and signal, that was valid and could be added |
| Governance.CGovernanceObject.ProcessVotes | src/governance-object.cpp:98-197 | the events of such a sequence, processed by the object one after the other, give the map that these results are about |
| Governance.CGovernanceObject.CountMatchingVotes | src/governance-object.cpp:606-621 | counts the safenodes whose current vote on the signal has the outcome |
| Governance.CGovernanceObject.GetAbsoluteYesCount | src/governance-object.cpp:627-630 | yes votes less no votes |
| Governance.TalliedIsLatest | src/governance-object.cpp:119-197 | after any sequence of valid votes the map holds, for every safenode and signal voted on, a vote with the latest time, and nothing else |
| Governance.OrderIndependent | src/governance-object.cpp:119-197 | where times decide between disagreeing votes, any order and repetition of the same votes gives the same map, and the tallies are those of each safenode's latest votes |
| Governance.TiesGoToTheLast | src/governance-object.cpp:145-152 | two votes at the same time count alike in either order if and only if they agree |
| Governance.RateCheckIdle | src/governance-object.cpp:154-169 | the rate check rejects a vote if and only if the clock is in the first hour of 1970 and the vote reaches the check, because the time it compares with is never set |
| Governance.RateCheckNeverFires | src/governance-object.cpp:154-169 | so after any sequence of events no vote is rejected as too frequent at a later time |
| Mixing.GetDenominations | src/darksend.cpp:2164-2194 | the loops compute the mask of the denominations used, zero when an output has none |
| Mixing.MaskMeaning | src/darksend.cpp:2155-2194 | the mask is non-zero exactly when there are outputs and all are denominated, and equal non-zero masks mean the same denominations |
| MixingMeaning.DenomOkIs | src/darksend.cpp:2196-2217 | a session may be opened for a number if and only if it is below 2^k and 2^k does not divide it, with k the number of denominations: of those that are not negative, exactly the masks of some outputs; and also for -1, which no outputs have |
| Mixing.CDarksendPool.constructor | src/darksend.h:423-429 | a new pool is idle, and every condition on reachable states holds |
| Mixing.CDarksendPool.SetNull | src/darksend.cpp:460-478 | resets the session to idle and empty |
| Mixing.CDarksendPool.CreateNewSession | src/darksend.cpp:2040-2077 | a session starts exactly when the denomination is acceptable (`DenomOkIs`) and the collateral valid, and then queues with this one user, under a number from 1 to 999999 |
| Mixing.CDarksendPool.AddUserToExistingSession | src/darksend.cpp:2079-2111 | a user joins exactly when the session still queues, has room, and has this denomination |
| Mixing.CDarksendPool.DsAccept | src/darksend.cpp:38-91 | exactly when a request to mix is accepted; a refused one changes nothing |
| Mixing.CDarksendPool.CheckForCompleteQueue | src/darksend.cpp:834-846 | the queue closes exactly when it is full |
| Mixing.CDarksendPool.IsOutputsCompatibleWithSessionDenom | src/darksend.cpp:2006-2016 | true exactly when the outputs have a mask and every entry so far has the same one |
| MixingRuns.FirstEntryDecides | src/darksend.cpp:2006-2016 | whatever entries and signatures a session is handed after it opened, those in the pool in the end are all of the session's denomination if and only if the first entry that passed the first checks was: the check never looks at the session's denomination |
| MixingRuns.WrongDenomination | src/darksend.cpp:2006-2016 | a run of a new pool: announced for coins of 10, it takes an entry of coins of 1 |
| Mixing.CDarksendPool.AddEntry | src/darksend.cpp:950-994 | an entry joins exactly when its inputs are not null, its collateral is valid, there is room, and it shares no outpoint with any entry |
| Mixing.CDarksendPool.IsInputScriptSigValid | src/darksend.cpp:848-889 | the loops verify a signature for the entries joined one after the other, not sorted, at the last input with its outpoint and with the script that input brought along |
| MixingMeaning.OneAfterOther | src/darksend.cpp:848-870 | the inputs and outputs a signature is checked against are those of the entries, one entry after the other |
| Mixing.CDarksendPool.DsVin | src/darksend.cpp:166-274 | exactly when an entry joins: the session is full, its outputs have the mask of the others, it passes the node's checks, no outpoint of it is null or in the pool, its collateral is valid and there is room; one turned down at first changes nothing, one turned down at last resets the session, the last to join starts the signing |
| Mixing.CDarksendPool.CreateFinalTransaction | src/darksend.cpp:589-614 | the outpoints and outputs of the final transaction are those of the entries, as many times each, inputs sorted by outpoint and outputs by value and script |
| Mixing.CDarksendPool.AddScriptSig | src/darksend.cpp:996-1032 | a signature is accepted exactly when it is new and verifies for the entries so far as they joined; it goes to every input of the transaction at its place and to the first entry that takes it, is recorded with the number of entries and the script it was checked with, and changes no input place and no output |
| MixingMeaning.SignatureTaken | src/darksend.cpp:996-1032 | the whole effect of a signature: refused, changing nothing, exactly when some input carries it already, none spends its outpoint, or it is not valid for all the inputs and outputs as they joined, at the last input that spends its outpoint and with its script; else all inputs of the transaction at its place take it, and the first entry whose first input there waits; without one it is refused after all |
| MixingMeaning.MessageRun | src/darksend.cpp:345-353 | the signatures of a message are taken one after the other until one is refused |
| Mixing.CDarksendPool.DsSign | src/darksend.cpp:325-356 | the signatures of a message are taken in order up to the first that is refused; it commits only while signing, at most once, and then exactly the entries handed in with the signatures taken |
| Mixing.CDarksendPool.IsSignaturesComplete | src/darksend.cpp:1035-1042 | true exactly when every input of every entry is marked signed |
| Mixing.CDarksendPool.CheckPool | src/darksend.cpp:561-587 | commits exactly when signing and all signed, merges exactly when all entries are in, and otherwise changes nothing |
| Mixing.CDarksendPool.CommitFinalTransaction | src/darksend.cpp:616-663 | the session ends either way; what is committed is the merged and sorted transaction of all the entries, each input of which carries a signature that verified for the entries that were in the pool when it came |
| MixingMeaning.CommittedIs | src/darksend.cpp:589-663 | a committed transaction has the inputs and outputs of as many entries as the pool holds, each once, in strict order of outpoints and order of values and scripts; all outputs are of denominations, the same ones for every entry, and every input was signed |
| MixingMeaning.CommittedChecked | src/darksend.cpp:848-889 | each of its signatures was valid, with some script, for the inputs and outputs of the entries that had joined when it came, in the order they joined, at an input of its outpoint |
| MixingSigs.CommittedHolds | src/darksend.cpp:589-663 | which signatures of a committed transaction are valid for the scripts of their coins, whatever the pool checked them with. One that determines the whole transaction: if and only if it was made on the very message of its input there; made on the first j entries, if and only if j is all of them and it lists them in the order of the transaction. One that determines its own input and all outputs, as the client makes them: if and only if it agrees with the transaction in these, so if and only if j is all and the outputs are in order. So one made on the merged transaction is valid in whatever order the entries joined, and one made before all had joined is not |
| MixingSigs.CheckedHolds | src/darksend.cpp:848-889 | had the pool checked a signature with the script of its coin: it is valid in the committed transaction if and only if it came after all entries, and they, or for the second type their outputs, had joined in order |
| MixingSigs.MadeForCommitted | src/darksend.cpp:848-889 | a signature made for the merged transaction: with the script of the coin, the pool finds it valid if and only if the entries, or for the second type their outputs, had joined in order; with a script that does not read what is signed, in every order or in none |
| MixingSigs.AcceptedUnread | src/darksend.cpp:848-889 | checked with a script that does not read what is signed, a new signature is found valid for every outpoint that is spent in the pool or for none of them, whatever else is in the pool and in whatever order it joined |
| MixingRuns.ReceivedAccepted | src/darksend.cpp:996-1032 | in a pool of messages received from the network a new signature that passes under the empty script unread, as one that only pushes data does, is taken for any input that waits for one, at any time and in whatever order the entries joined |
| MixingRuns.ScriptsStayEmpty | src/primitives/transaction.h:101-108 | whatever entries and signatures come from the network, which does not carry the scripts of coins, every check of a signature was made with the empty script |
| MixingRuns.SignEarly | src/darksend.cpp:325-356 | a run of a new pool of two, whose coins ask for signatures of the whole message under script COIN and whose checks use the empty script: the first user makes a signature for COIN on the one entry there is, it is taken, and a transaction is committed in which it is not valid |
| MixingRuns.SignInTurn | src/darksend.cpp:589-614 | runs of such a pool, for any two outpoints and any two signatures: both users sign after both have joined, the pool takes the signatures under the empty script and commits, and each is valid for COIN if and only if it is that of its input in the committed transaction |
| MixingRuns.SignMerged | src/darksend.cpp:589-614 | so when both sign what is committed, both signatures are valid, in whatever order the users joined |
| MixingRuns.SignNothing | src/darksend.cpp:848-889 | and when both send data that is a signature of nothing for COIN, in time and after joining in order, the transaction is committed with no valid signature |
| Mixing.AllChecked | src/darksend.cpp:996-1042 | once every entry is signed, every input of the merged transaction carries a signature that was verified for the entries of its time, as they had joined |
| Mixing.CDarksendPool.CheckTimeout | src/darksend.cpp:780-827 | a session that times out is reset; nothing is committed; without a session or a timeout nothing changes |
| Bloom.CBloomFilter.Insert | src/bloom.cpp:61-72 | sets exactly the bits of the key, unless the filter is full, keeps every key inserted so far findable, and adds no bit but of a key inserted |
| Bloom.CBloomFilter.Contains | src/bloom.cpp:88-102 | true exactly when the filter is full, or not empty with every bit of the key set; never false for an inserted key; and while the bits are those of the keys inserted, true exactly when there are some and every bit of the key is one of some of them |
| Bloom.CBloomFilter.Clear | src/bloom.cpp:118-123 | every byte is zero and the flags say so; the filter can be used on if and only if it has a byte or no hash function |
| Bloom.CBloomFilter.UpdateEmptyFull | src/bloom.cpp:206-217 | the flags become true to the bytes; the inserted keys stay findable if and only if there is none, or the filter is full or not all zero — always, with at least one byte and one hash function |
| Bloom.CRollingBloomFilter.constructor | src/bloom.cpp:219-230 | a rolling filter for N keys swaps halves every N insertions; it starts without any key |
| Bloom.CRollingBloomFilter.Insert | src/bloom.cpp:232-244 | an insertion, clearing one half every N of them, leaves both halves with exactly the keys since they were cleared |
| Bloom.CRollingBloomFilter.Contains | src/bloom.h:113-114 | true for each of the last N keys inserted since the last reset; true for any other exactly when every bit of it is a bit of one of the last N + i, where i counts the insertions since the last multiple of N |
| Bloom.CRollingBloomFilter.Reset | src/bloom.cpp:266-272 | a reset starts a new history |
| CacheMultiMap.CacheMultiMap.Insert | src/cachemultimap.h:92-114 | when full the oldest item goes, even if the new one turns out to be a duplicate; a duplicate of what is kept is refused; otherwise it becomes the newest; index, list and size agree |
| CacheMultiMap.CacheMultiMap.GetAll | src/cachemultimap.h:134-147 | the values are exactly those the list holds for the key, and there are some exactly when it reports so |
| CacheMultiMap.CacheMultiMap.EraseValue | src/cachemultimap.h:172-192 | removes the one item of the pair if there is one, and drops an inner map that becomes empty |
| CacheMultiMap.CacheMultiMap.Erase | src/cachemultimap.h:156-170 | leaves exactly the items of other keys, in order |
| CacheMultiMap.CacheMultiMap.PruneLast | src/cachemultimap.h:221-245 | removes the oldest item and its index entry |
| CacheMultiMap.CacheMultiMap.RebuildIndex | src/cachemultimap.h:247-259 | from any list and size, as read from disk, every pair is indexed under its last node; the object is consistent if and only if no pair is repeated and the size is that of the list, within the maximum |
| CacheMap.CacheMap.Insert | src/cachemap.h:111-125 | a known key gets the new value in its place; a new one becomes the newest and pushes the oldest out when full; index, list and size agree |
| CacheMap.CacheMap.Get | src/cachemap.h:133-142 | the look-up answers what a search of the list would |
| CacheMap.CacheMap.Erase | src/cachemap.h:144-153 | removes the one item of the key if there is one |
| CacheMap.CacheMap.PruneLast | src/cachemap.h:182-191 | removes the oldest item and its index entry |
| CacheMap.CacheMap.RebuildIndex | src/cachemap.h:193-199 | from any list and size, as read from disk, every key is indexed under its last node; the object is consistent if and only if no key is repeated and the size is that of the list, within the maximum |
| CacheMap.CGovernanceObjectVoteFile.AddVote | src/governance-votedb.cpp:22-27 | any vote becomes the newest and the one indexed under its hash; list, index and count go on agreeing if and only if no vote of that hash was held |
| CacheMap.CGovernanceObjectVoteFile.GetVote | src/governance-votedb.cpp:38-46 | the look-up answers what a search of the list would, and the vote found has the hash asked for |
| CacheMap.CGovernanceObjectVoteFile.RemoveVotesFromSafenode | src/governance-votedb.cpp:57-70 | leaves exactly the votes of other safenodes, in their order |
| CacheMap.CGovernanceObjectVoteFile.RebuildIndex | src/governance-votedb.cpp:80-97 | from any list read from disk, keeps the first vote of every hash, in order, and makes list, index and count agree |

## Left out

- Networking, RPC, wallet, database, file and start-up code, logging, relaying and locks inside single-threaded components.
- Cryptography: hashes, signatures and public keys are uninterpreted; of script compression it is assumed only that decompressing the compressed form of a valid key returns the key.
- AddrManRuns.SelectFindsEntry: states which table `Select_` draws from and that it holds something; the random search for an entry, its termination and the chances of selection are not modelled.
- AddrManRuns.Run: ids and counts of attempts are unbounded integers, so their overflow is not modelled; `Check_` is modelled as a condition, not as the loop that tests it.
- AddrManRestore.FileRoundTrip: a file is modelled as its fields, lists of entries and lists of indexes, not as bytes. The size of its numbers is not modelled.
- AddrManStore.Unserialize: a stream that ends before its counts is not modelled, nor whether a manager is consistent that was read from one which ends among its bucket lists.
- CoinsCache.CoinsViewCache.SetModified: stands for whatever the holder of a modifier does to the record; building records from transactions is not modelled.
- CoinsCache: `SetBackend`, `SetBestBlock`, statistics, priorities and input values; the memory usage of a record is an uninterpreted function.
- CoinsCodec.Serialize: requires versions, heights and sizes within their machine widths.
- InstantSend.CInstantSend.ResolveConflicts: conflicts with the mempool and the chain are an oracle, and what is removed there is not modelled.
- InstantSend.CInstantSend.ProcessTxLockVote: the rank of a safenode for an outpoint is fixed and injective, oracle answers do not change within one call, and votes are identified without hash collisions; the rate limit of waiting votes is an oracle.
- InstantSend: what expires is given to the sweep from outside; confirmation heights, relaying, wallet and conflict bookkeeping.
- CheckQueue.WaitIsExact: there is one master, checks are added outside `Wait`, and a check has a fixed result.
- ChainSkips.FewLinks: that 110 links suffice for 2^18 blocks, as the comment in the source observes, is not proved.
- Chain.CChain.GetLocator: lists blocks where the source lists their hashes; the step does not overflow below a height of 2^31.
- ArithUint: hexadecimal text, conversion to floating point, and the bitwise operators between numbers.
- Base58.DecodeBase58: the text is that of a C string, up to its first null character.
- Governance.CGovernanceObject.ProcessVote: the votes kept are modelled as a set; the file that lists and indexes them is `CGovernanceObjectVoteFile`. Rebuilding, clearing and orphan votes are not modelled.
- Bloom: the sizing formulas, which use floating point, the probability of a false positive, the hash function, and the update from transactions.
- CacheMap and CacheMultiMap: copying, assignment, serialization and changing the maximum size.
- Mixing: the client's half, fees, relaying, and the contents of script, mempool and collateral checks; of entries that pass them it is assumed that they spend no outpoint twice. Sorting is any function that sorts by the two orders.
- MixingSigs.CommittedHolds: verifying is a function of the inputs and outputs in order, the place of the input, the script and the signature; that a signature determines what it signs, by either type, is a hypothesis about it.
- MixingSigs.AcceptedUnread: that the empty script reads nothing of what is signed is a hypothesis about the signature; it holds of those that only push data, not of one that runs a signature check itself.
