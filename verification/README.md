# Verified core of a PIVX-derived node

This project models the hardest self-contained parts of the node in Dafny and proves what they are
for: consistency of data structures over whole runs, exactness of a concurrent protocol,
refinement of fast representations by plain ones, and round trips of codecs. `dafny verify
dfyconfig.toml` checks everything.

The parts, and the files that hold them:

- **Verification queue** (`CheckQueue`): one master, any number of workers, one mutex and two
  condition variables as a state machine. Every critical section is one atomic step, every single
  check another, and waking up is possible at any time. Wait returns the conjunction of all checks
  added since the previous Wait, never deadlocks, even without spurious wake-ups, and terminates.
- **UTXO caches** (`Coins`, `CoinsStack`): a stack of write-back caches of any depth over the
  database behaves exactly as one plain map per level, for every legal sequence of operations.
- **Address manager** (`AddrTables`, `AddrState`, `AddrOps`, `AddrRuns`, `AddrEffects`, `AddrMan`, `AddrCheck`):
  six mutually redundant structures stay in step over every run of public operations; the class
  `AddrMan` holds the source's fields and its methods are proved equal to the steps of the
  specification. `AddrEffects` says what Good_, Add_ and the others do by the tables and entries before
  and after alone. `AddrStore`, `AddrReload`, `AddrRoundTrip` and `AddrDisk` do the same for the
  stream: a manager that is written and read back is the same one up to renaming of ids.
  `AddrStreams` and `AddrSurvivors` read any stream with any parameters: which entries stay, and
  exactly when the result is consistent.
- **Coin selection** (`Denominations`, `Spending`, `ChangeOutcome`, `Mints`): completeness and minimality of bounded
  greedy selection for denominations that divide each other, the accounting of the change minimiser,
  whose outcome is determined phase by phase,
  and the selection of mints from a list. The list of denominations is a parameter: any ascending
  list in which each value divides the next.
- **Cuckoo cache** (`Cuckoo`): displacement insertion and which way it goes, lazy erasure, epoch ageing and the load bound.
- **Big integers** (`Bits`, `Limbs`, `LimbOps`, `ArithUint`, `ArithShift`, `ArithDivide`, `Compact`):
  the limb loops refine integer arithmetic modulo 2^BITS for every width, and the compact format.
- **Bech32** (`Bech32Checksum`, `Bech32`), following BIP 173: the checksum register as a polynomial
  remainder over GF(32), its linearity, burst detection, and exactly which strings decode to what.
  `Bech32Field`, `Bech32Roots` and `Bech32Errors` prove the distance of the code: three consecutive
  powers of a primitive element of GF(1024) are roots of the generator, so up to three errors within
  1023 symbols are detected. `Bech32Prefix` does the same for errors in the prefix.
- **Base58** (`Powers`, `Base58`): the buffer arithmetic against plain base conversion, buffer sizes
  for every length, and both round trips.
- **Bloom filters** (`Bloom`) and **amount compression** (`Compressor`, `CompressorWords`). `Options`
  holds a shared type.

Conventions. Hash functions, random choices, clock readings and thread schedules are arbitrary
functions or arguments; a theorem holds for all of them. Unsigned words are naturals with their
wrap-around written out; bitwise operators on them are defined in `Bits` by recursion on the bits, and
the elements of GF(1024) are bit vectors.
Loops and in-place updates of the source are methods, each specified by a function of the old state
about which the theorems are proved. A property that the code does not have in full is stated as the
code is, with the exact condition:

- `Coins.AddCoinCoherentIff`, `Coins.WrongNoOverwriteResurrects`: ruling out an overwrite wrongly
  breaks the cache; the condition is the contract at src/coins.h:237-241.
- `CoinsStack.Stack.Flush`: a cache without a best block of its own overwrites its parent's best
  block with null (src/coins.cpp:203), so a best block can be lost, as in `CoinsStack.BestBlockLost`;
  the contract says exactly when.
- `ArithUint.Multiply`: `x *= x` gives zero (src/arith_uint256.cpp:77-78), since the target is
  cleared before the other factor is read; the operator `*` copies first and is not affected.
- `CompressorWords.WordRoundTrip`: amounts whose compressed form overflows 64 bits are lost, and some
  of them are below the configured maximum (src/chainparams.cpp:180, `Compressor.LargeAmountLost`);
  an amount n comes back if and only if n % 10 == 0 or 90 (n / 10) + 10 (n % 10) - 9 < 2^64.
- `Mints.SelectMintsFromList`: a selection with change is never held against the limit on spends,
  although src/denomination_functions.cpp:390-393 promises it; `Mints.LimitPassed` is an input that
  breaks it. The limit is kept if and only if some selection of the held coins covers the target
  within it.
- `Compact.ComesBackIff`: not every compact comes back from its value (`Compact.NotCanonical`), only
  the canonical ones whose value fits.
- `AddrSurvivors.LoadedValidIff`: a stream that no consistent manager wrote can leave an inconsistent
  one (`AddrSurvivors.SharedAddressBreaks`), although the source calls its checker after reading
  (src/addrman.h:460); the lemma says exactly which.
- `Mints.GetSpends`: when more mints of a denomination are wanted than there are, the source walks
  its list again and hands out a mint twice (src/denomination_functions.cpp:129-138). It returns if
  and only if every wanted denomination has an unused mint (`Mints.SpendsEndIff`), and then its picks
  are distinct if and only if there were enough.

Where code and comments disagree the model follows the code: the first displacement of a cuckoo
insertion uses the second hash slot (src/cuckoocache.h:406), not the first as the comment above it
says; and `calculateChange` is correct for every target its coins can cover, not only for those that
cannot be met exactly as the comment at src/denomination_functions.cpp:304-308 suggests.

## Model

| member | source | states |
|---|---|---|
| `CheckQueue.RunInv` | src/checkqueue.h:68-157 | every state of every interleaving of one master and any number of workers satisfies the counter invariant and the verdict invariant for the checks added since the last Wait |
| `CheckQueue.WaitReturnsConjunction` | src/checkqueue.h:68-142 | Wait returns true if and only if every check added since the previous Wait evaluates to true, in every interleaving, and leaves the queue idle |
| `CheckQueue.LockStep` | src/checkqueue.h:77-119 | one critical section of Loop keeps the counters exact and the verdict spread over fAllOk, the queue and the batches; only the master returns, with the conjunction |
| `CheckQueue.ExecStep` | src/checkqueue.h:120-124 | running one check of a batch outside the mutex, or skipping it after a failure, keeps both invariants |
| `CheckQueue.AddStep` | src/checkqueue.h:145-157 | Add extends the pending checks by exactly what was added, whichever workers its notification reaches |
| `CheckQueue.BatchLength` | src/checkqueue.h:104-109 | a batch is never empty, never longer than the queue and, unless it is one check, never longer than the batch size |
| `CheckQueue.CountersExact` | src/checkqueue.h:77-119 | whenever the mutex is free nTodo is queued plus in-flight checks and nTotal - nIdle is the number of threads that hold a batch |
| `CheckQueue.BlockedMasterHasWorker` | src/checkqueue.h:82-103 | a master blocked without a pending notification always has a worker in flight |
| `CheckQueue.IdleWhenNothingPending` | src/checkqueue.h:163-167 | with nothing pending IsIdle holds |
| `CheckQueue.ControllerFindsIdleQueue` | src/checkqueue.h:182-189 | the assertion of the next controller holds in every reachable state with nothing added since the last Wait |
| `CheckQueue.StepUsesWork` | src/checkqueue.h:68-126 | while the master waits, every step that changes the state ends Wait or lowers a natural measure of the work left |
| `CheckQueue.WaitIsNeverStuck` | src/checkqueue.h:68-126 | while the master is inside Wait some thread that is not blocked without a notification can always take a step that changes the state: there is no deadlock and no lost wake-up, and nothing depends on a spurious one |
| `CheckQueue.WaitTerminates` | src/checkqueue.h:68-142 | while the master is inside Wait no interleaving without futile wake-ups is longer than the measure of its first state |
| `Coins.ViewsUnique` | src/coins.cpp:37-63 | the plain map behind every level of a stack is determined by the contents of database and caches |
| `Coins.AddCoinCoherentIff` | src/coins.cpp:65-84 | AddCoin keeps the promise of the FRESH flag if and only if an overwrite was announced, the outpoint is cached here, or the parent has no unspent coin there |
| `Coins.WrongNoOverwriteResurrects` | src/coins.cpp:65-110 | when that condition is broken, adding and then spending a coin makes the old unspent coin visible again |
| `Coins.MergeIsOverlay` | src/coins.cpp:148-205 | writing a coherent child into its parent makes the parent show what the child showed, keeps it coherent with the grandparent, and never meets a FRESH child entry over an unspent parent entry |
| `Coins.DbWriteIsOverlay` | src/txdb.cpp:85-109 | the database after a batch holds exactly the unspent coins the child showed |
| `Coins.FlushCache` | src/coins.cpp:207-213 | flushing a cache into a cache makes the parent map equal to the child map and changes no other map of the stack |
| `Coins.FlushToDb` | src/txdb.cpp:85-109 | flushing the lowest cache into the database does the same |
| `Coins.FreshNeverMisapplied` | src/coins.cpp:169-177 | the condition of the commented-out "FRESH flag misapplied" check is unreachable on a coherent stack of any depth |
| `CoinsStack.FetchKeepsView` | src/coins.cpp:37-53 | caching what the parent answered, FRESH if it is spent, changes nothing visible and keeps the flags truthful |
| `CoinsStack.UncacheKeepsView` | src/coins.cpp:215-222 | dropping an entry without flags changes nothing visible |
| `CoinsStack.SpendShows` | src/coins.cpp:96-110 | spending removes exactly that outpoint from the map, whether the entry is erased or cleared |
| `CoinsStack.AddShows` | src/coins.cpp:65-84 | adding under the contract sets exactly that outpoint of the map |
| `CoinsStack.BestCached` | src/coins.cpp:136-141 | remembering the best block of the base changes nobody's best block |
| `CoinsStack.Stack.Push` | src/coins.cpp:31-31 | a new empty cache shows the map of its base |
| `CoinsStack.Stack.GetCoin` | src/coins.cpp:55-63 | at any depth the reply agrees with the plain map of that level, and no map changes although caches are filled |
| `CoinsStack.Stack.FetchCoin` | src/coins.cpp:37-53 | the entry returned is the one now cached and agrees with the plain map of the level |
| `CoinsStack.Stack.HaveCoin` | src/coins.cpp:124-128 | true if and only if the plain map of the level has the outpoint |
| `CoinsStack.Stack.AddCoin` | src/coins.cpp:65-84 | throws if and only if overwriting was ruled out and the map has the coin; otherwise the map gets exactly this coin, or nothing changes if the script is unspendable |
| `CoinsStack.Stack.SpendCoin` | src/coins.cpp:96-110 | removes exactly this outpoint from the map of the top cache and hands out what the map had |
| `CoinsStack.Stack.Uncache` | src/coins.cpp:215-222 | drops the entry exactly if it carries no flag; no map changes |
| `CoinsStack.Stack.BatchWriteCache` | src/coins.cpp:148-205 | entry by entry, in any order, the parent cache becomes the merge of itself and the batch |
| `CoinsStack.Stack.BatchWriteDb` | src/txdb.cpp:85-109 | the database becomes the old one with the dirty entries of the batch applied; a null best block is not written |
| `CoinsStack.Stack.Flush` | src/coins.cpp:207-213 | the parent map becomes the flushed map and every other map stays; the best block becomes exactly that of the cache or, if it holds none, of what is below its parent, so it survives exactly when this cache holds one, writes to the database, or parent and grandparent agreed already |
| `CoinsStack.Stack.SetBestBlock` | src/coins.cpp:143-146 | the best block of the level becomes the given one unless that is null, and no best block below and no map changes |
| `CoinsStack.BestBlockLost` | src/coins.cpp:203-213 | on the stack with the database at block 1, a cache at block 2 and a cache without a best block, flushing the latter takes its best block from 2 back to 1 |
| `CoinsStack.BuildThreeLevels` | src/coins.cpp:136-146 | such a stack can be built |
| `CoinsStack.Stack.GetBestBlock` | src/coins.cpp:136-141 | the nearest non-null best block at or below the level, for every level the same before and after |
| `CoinsStack.Perform` | src/coins.h:237-241 | every operation on the caches is one operation on plain maps, with the same answer |
| `CoinsStack.Run` | src/coins.cpp:37-222 | over every legal sequence of reads, adds, spends, uncaches, flushes, pushes and drops a stack of any depth ends with the maps and gives the answers of the plain specification |
| `AddrTables.ClearSlotKeepsNew` | src/addrman.cpp:136-149 | emptying a new slot and lowering the count of its holder keeps every reference count equal to the number of slots |
| `AddrTables.FillSlotKeepsNew` | src/addrman.cpp:323-326 | filling an empty slot of an entry and raising its count keeps every reference count exact |
| `AddrTables.RandomLength` | src/addrman.cpp:410-411 | vRandom lists exactly the known entries, each once, tried and new together |
| `AddrState.FreshValid` | src/addrman.h:464-488 | a fresh object is consistent |
| `AddrState.SwapRandomKeeps` | src/addrman.cpp:102-120 | exchanging two places of the random order keeps all indexes inverse to each other; its assertions hold |
| `AddrState.DeleteKeeps` | src/addrman.cpp:122-134 | deleting an entry without references passes the assertions, removes exactly that entry and keeps all tables in step |
| `AddrState.ClearNewKeeps` | src/addrman.cpp:136-149 | clearing a slot empties exactly that slot and forgets its holder exactly if this was its last reference |
| `AddrState.LeaveNewKeeps` | src/addrman.cpp:153-163 | the loop over all new buckets leaves the entry without references and every other count exact |
| `AddrOps.EvictKeeps` | src/addrman.cpp:169-191 | sending the incumbent of a tried slot back to its home slot passes the assertions and keeps all tables in step |
| `AddrOps.MakeTriedKeeps` | src/addrman.cpp:151-197 | MakeTried changes exactly one tried slot, takes the entry out of all its new slots, gives the former incumbent its home slot and keeps every table in step |
| `AddrOps.MakeTriedValid` | src/addrman.cpp:151-197 | MakeTried keeps the whole invariant, including the collision set, and empties no tried slot |
| `AddrOps.GoodValid` | src/addrman.cpp:199-261 | Good_ keeps the invariant, never empties a tried slot, and the "something bad happened" exit is unreachable; which entry moves where is AddrEffects.GoodEffect |
| `AddrOps.AttemptValid` | src/addrman.cpp:336-356 | Attempt_ keeps the invariant |
| `AddrOps.ConnectedValid` | src/addrman.cpp:503-521 | Connected_ keeps the invariant |
| `AddrOps.SetServicesValid` | src/addrman.cpp:523-539 | SetServices_ keeps the invariant |
| `AddrOps.UntriedHasBucket` | src/addrman.cpp:228-243 | an untried entry of a consistent object always sits in some new bucket |
| `AddrRuns.CreateKeeps` | src/addrman.cpp:90-100 | creating an entry for an unknown address keeps all tables in step, the entry being the only one without a slot |
| `AddrRuns.PlaceKeeps` | src/addrman.cpp:312-332 | the last part of Add_ leaves no entry without a slot and changes at most the slot asked for |
| `AddrRuns.AddValid` | src/addrman.cpp:263-334 | Add_ keeps the invariant and the tried table for known, unknown and unroutable addresses; which slot an entry gets is AddrEffects.AddEffect |
| `AddrRuns.CollisionHolderKnown` | src/addrman.cpp:556-567 | a known id in the collision set maps to an occupied tried slot whose holder is known, so the lookup of the incumbent creates no entry |
| `AddrRuns.ResolveOneValid` | src/addrman.cpp:545-595 | resolving one collision keeps the invariant and empties no tried slot, whatever each of its four readings of the clock says |
| `AddrRuns.StepValid` | src/addrman.cpp:199-622 | every public operation keeps the invariant and leaves occupied tried slots occupied |
| `AddrRuns.RunValid` | src/addrman.cpp:405-479 | in every run of public operations from a fresh object every state satisfies the invariant |
| `AddrRuns.TriedSlotsStayOccupied` | src/addrman.cpp:169-197 | a tried slot that was ever occupied is occupied for the rest of the run |
| `AddrRuns.SelectFindsEntry` | src/addrman.cpp:358-402 | the table Select_ probes has an occupied slot, and what it holds is a known entry of that table |
| `AddrEffects.GoodEffect` | src/addrman.cpp:151-261 | told by tables and entries: for an address that is not known with this port only lastGood changes; for a known one the success is noted and no other statistics change; an untried entry leaves all its new slots for its tried slot with no references, the former incumbent is untried with one reference in its home slot, and only the holder of that slot is forgotten, if it was its last; with the test on and the slot occupied both tables stay and the id joins the collision set exactly if it has fewer than ten members |
| `AddrEffects.MoveEffect` | src/addrman.cpp:151-197 | the move to the tried table as above, slot by slot and key by key |
| `AddrEffects.AddEffect` | src/addrman.cpp:263-334 | told by tables and entries: an unroutable address changes nothing; an unknown one is known afterwards if and only if the slot of its source's bucket was free or its holder was terrible or had another slot, sits in exactly that slot with one reference, its source, services and penalised time, and no other slot changes; a known one gets its time and services updated and gains the slot of this source's bucket exactly under the conditions of the source |
| `AddrEffects.ResolveEffect` | src/addrman.cpp:545-595 | told by tables and entries: an unknown or invalid member is dropped, one whose incumbent was reached within four hours too; one whose incumbent was tried in vain within four hours but not within the last minute does what Good_ does and is dropped; any other goes on waiting |
| `AddrEffects.EntryEffects` | src/addrman.cpp:336-356 | at most the entry with exactly this address changes: an attempt is noted and counts as a failure only if the last one that counted was before the last success, the time moves only by more than twenty minutes, the services are replaced |
| `AddrEffects.OneFailureCounts` | src/addrman.cpp:350-355 | until some peer was reached again further failures of a peer do not count |
| `AddrCheck.NewSlotCount` | src/addrman.cpp:458-469 | an entry is in as many new slots as its reference count says |
| `AddrCheck.TriedSlotCount` | src/addrman.cpp:444-456 | a tried entry is in exactly one tried slot, any other in none |
| `AddrCheck.CheckPasses` | src/addrman.cpp:405-479 | every condition the checker tests holds in every state of every run: sizes, counters, per-entry conditions, slots and positions, and the collision set has at most ten members (the test for a null key is left to the caller) |
| `AddrMan.AddrMan.constructor` | src/addrman.h:464-488 | the fresh state, which is consistent |
| `AddrMan.AddrMan.SwapRandom` | src/addrman.cpp:102-120 | exactly the exchange of two places of the random order |
| `AddrMan.AddrMan.Delete` | src/addrman.cpp:122-134 | exactly the deletion step of the specification |
| `AddrMan.AddrMan.ClearNew` | src/addrman.cpp:136-149 | exactly the specified clearing of one slot |
| `AddrMan.AddrMan.LeaveNew` | src/addrman.cpp:153-166 | exactly the specified departure from the new table |
| `AddrMan.AddrMan.LeaveBuckets` | src/addrman.cpp:153-163 | the loop over all buckets removes the entry from every new slot and counts its references down |
| `AddrMan.AddrMan.EvictIncumbent` | src/addrman.cpp:170-191 | exactly the specified eviction |
| `AddrMan.AddrMan.MakeTried` | src/addrman.cpp:151-197 | exactly the specified move to tried, whose effect is AddrEffects.MoveEffect |
| `AddrMan.AddrMan.Find` | src/addrman.cpp:77-88 | the id of the entry with exactly this address and port, or none |
| `AddrMan.AddrMan.Good` | src/addrman.cpp:199-261 | exactly the specified step, and the effect told by tables and entries as in AddrEffects.GoodEffect; the result is consistent and its dead exit is not taken |
| `AddrMan.AddrMan.FindNewBucket` | src/addrman.cpp:228-238 | the cyclic search from a random start finds a bucket exactly if there is one |
| `AddrMan.AddrMan.Attempt` | src/addrman.cpp:336-356 | the update of statistics: at most this entry changes, as in AddrEffects.EntryEffects |
| `AddrMan.AddrMan.Connected` | src/addrman.cpp:503-521 | the time moves if it is more than twenty minutes old, and nothing else changes |
| `AddrMan.AddrMan.SetServices` | src/addrman.cpp:523-539 | the services of this entry are replaced, and nothing else changes |
| `AddrMan.AddrMan.Create` | src/addrman.cpp:90-100 | exactly the specified creation |
| `AddrMan.AddrMan.Add` | src/addrman.cpp:263-334 | exactly the specified step and its reply, and the effect told by tables and entries as in AddrEffects.AddEffect; the result is consistent |
| `AddrMan.AddrMan.AddKnown` | src/addrman.cpp:277-304 | the branch for an address that is known: its time, services and further slot as in AddrEffects.AddEffect |
| `AddrMan.AddrMan.AddUnknown` | src/addrman.cpp:305-310 | the branch for an address that is not known: in exactly the slot of its source's bucket, or not known afterwards, as in AddrEffects.AddEffect |
| `AddrMan.AddrMan.Place` | src/addrman.cpp:312-332 | exactly the specified placement |
| `AddrMan.AddrMan.ResolveOne` | src/addrman.cpp:547-594 | exactly the specified resolution, with a clock reading of its own for each test, and its effect as in AddrEffects.ResolveEffect; the branch "not a collision anymore" is dead |
| `AddrMan.AddrMan.ResolveCollisions` | src/addrman.cpp:545-595 | resolves every member of the collision set, in some order and with fresh clock readings for each, and stays consistent |
| `AddrMan.AddrMan.SelectTriedCollision` | src/addrman.cpp:597-622 | forgets an unknown id, otherwise hands out the tried incumbent of the slot |
| `AddrMan.AddrMan.GetAddr` | src/addrman.cpp:482-501 | at most 23% of all and at most 2500 addresses, of distinct entries none of which was terrible at the time it was looked at; that many, unless every entry is in the sample or was terrible when looked at; entries keep all but their random positions and the object stays consistent |
| `AddrStore.ListedCounts` | src/addrman.h:329-348 | the two lists Serialize writes are exactly nNew and nTried long, so its assertions hold |
| `AddrStore.MayDelete` | src/addrman.h:445-455 | for every stream the assertions of Delete hold for each entry the pruning loop finds |
| `AddrStore.RowsLined` | src/addrman.h:386-443 | for every stream ids and random order stay in step while it is read, so the entry behind a valid index exists |
| `AddrReload.TriedsRead` | src/addrman.h:406-425 | reading back what was written, no tried entry finds its slot taken |
| `AddrRoundTrip.RoomLeft` | src/addrman.h:430-442 | reading back, no index is refused because of an occupied slot or a full reference count |
| `AddrRoundTrip.CountsRecovered` | src/addrman.h:427-443 | the reference counts, which are not written, come back |
| `AddrRoundTrip.RoundTrip` | src/addrman.h:315-461 | Unserialize of Serialize into a fresh object is well-formed and equals the original up to renaming of ids: no entry is lost and both tables hold the same entries in the same slots |
| `AddrDisk.Serialize` | src/addrman.h:315-363 | exactly the specified stream; both counter assertions hold |
| `AddrDisk.StoreNew` | src/addrman.h:329-339 | the entries with references in id order, and for every id its place among them |
| `AddrDisk.StoreTried` | src/addrman.h:340-348 | the tried entries in id order |
| `AddrDisk.StoreSlots` | src/addrman.h:349-363 | for every new bucket the indexes of its entries in slot order |
| `AddrDisk.Unserialize` | src/addrman.h:365-461 | for every stream, usable or not, exactly the specified rebuilding of a fresh object |
| `AddrDisk.LoadNewEntries` | src/addrman.h:386-403 | the entries of the new table, with a home slot where the buckets cannot be used |
| `AddrDisk.LoadTriedEntries` | src/addrman.h:405-425 | the entries of the tried table; those whose slot is taken are counted as lost |
| `AddrDisk.LoadBucket` | src/addrman.h:427-443 | the indexes of one bucket, each refused exactly under the tested conditions |
| `AddrDisk.Prune` | src/addrman.h:445-455 | drops exactly the new entries without a reference |
| `AddrDisk.SaveAndReload` | src/addrman.h:315-461 | an object written and read into a fresh one: the copy is consistent and a renaming of the original |
| `AddrDisk.SaveAndChange` | src/addrman.h:312-461 | the same into an object with any other table sizes and hashes: the copy is consistent and holds exactly the entries that stay |
| `AddrStreams.TriedsHaveRead` | src/addrman.h:386-425 | for every stream: after the tried list all indexes but the addresses are in order, the occupied tried slots are those some entry belongs into, and lost entries are taken off the counter |
| `AddrStreams.RowsHaveRead` | src/addrman.h:427-443 | reading the buckets of any stream keeps this |
| `AddrStreams.NewStaysIff` | src/addrman.h:386-443 | an entry of the new list gets a slot exactly if it is the first of its home slot, where the buckets cannot be used, or wins a slot of some bucket, being the first that belongs there and has references left |
| `AddrSurvivors.PrunedIs` | src/addrman.h:445-455 | the pruning loop removes exactly the untried entries without references and their addresses, whatever the address index says |
| `AddrSurvivors.LoadedSurvived` | src/addrman.h:365-461 | for every stream and all parameters exactly the entries that stay are known afterwards, with everything that is written, in the order of the stream |
| `AddrSurvivors.LoadedValidIff` | src/addrman.h:365-461 | for every stream and all parameters the result is consistent if and only if the entries that stay have no negative time of success, none that is zero if tried, and share their network address with no other entry that gets an id |
| `AddrSurvivors.SharedAddressBreaks` | src/addrman.h:386-403 | two new entries of one network address are never read into a consistent object |
| `AddrSurvivors.ChangedParameters` | src/addrman.h:312-313 | what a consistent object writes is read with any other parameters into a consistent one that holds exactly the entries that stay |
| `AddrSurvivors.SavedStaysIff` | src/addrman.h:427-443 | with the same number of new buckets an entry of a written object stays exactly if in some bucket it is the first of its slot, with another number exactly if it is the first of its home slot |
| `Denominations.Extract` | src/denomination_functions.cpp:39-61 | from coins worth at least T, T a multiple of the largest of them, some are worth exactly T: the exchange argument |
| `Denominations.GreedyComplete` | src/denomination_functions.cpp:39-61 | bounded greedy selection meets the target exactly if and only if some selection of the held coins does |
| `Denominations.GreedyFewest` | src/denomination_functions.cpp:284-286 | among all exact selections greedy uses the fewest coins |
| `Denominations.TakeIsMost` | src/denomination_functions.cpp:53-58 | one denomination: as many coins as fit and are held |
| `Spending.GetSpendCoins` | src/denomination_functions.cpp:39-61 | the loops compute bounded greedy selection and stay within what is held |
| `Spending.GetChange` | src/denomination_functions.cpp:66-86 | the loops compute unbounded greedy change |
| `Spending.ChangeBounds` | src/denomination_functions.cpp:66-86 | change never exceeds its amount, and there is none for nothing or less |
| `Spending.GetNumberOfCoinsUsed` | src/denomination_functions.cpp:11-19 | the number of coins |
| `Spending.StayBelow` | src/denomination_functions.cpp:231-245 | first phase: within held counts, strictly below a positive target, and every denomination left only when used up or no longer smaller than what is missing |
| `Spending.AddSpare` | src/denomination_functions.cpp:250-259 | second phase: adds a coin exactly if a spare one larger than the rest exists, namely the one of the smallest such denomination, and then exceeds the target |
| `Spending.RemoveOverlap` | src/denomination_functions.cpp:270-282 | third phase: takes away of every denomination the smaller of the coins used and the coins of change, and no more value than the change is worth |
| `Spending.Reselect` | src/denomination_functions.cpp:284-291 | fourth phase: the re-selection meets the amount exactly with no more coins, and the change counted is for it |
| `Spending.Alternative` | src/denomination_functions.cpp:247-291 | phases two to four together: the alternative is greedy selection of what is left of the first phase and the smallest spare coin when the overlap with its change is taken away; it covers the target if a spare coin was found |
| `Spending.MinimizeChange` | src/denomination_functions.cpp:212-301 | returns the change count and coins of the alternative of the four phases if that count is smaller and its coins are few enough, and otherwise those of the caller; the number is the coin count of greedy change for the selection left behind |
| `Spending.CoverFromTop` | src/denomination_functions.cpp:354-371 | whole denominations from the top: covers the target unless everything is used |
| `Spending.OvershootShowsSpare` | src/denomination_functions.cpp:360-385 | if covering from the top overshoots, every first phase leaves a spare coin, so the alternative covers the target too |
| `Spending.HighestHeldBelow` | src/denomination_functions.cpp:199-210 | the highest held denomination below a given one, or none |
| `Spending.CalculateChange` | src/denomination_functions.cpp:309-388 | for every target: used within held, the target covered whenever the held coins can cover it, everything used and no change otherwise, the number returned is exactly the coin count of greedy change for the excess, and for a positive target the limit on spends is kept if and only if some selection of the held coins keeps it; the outcome is the one that ChangeOutcome shows to be determined |
| `ChangeOutcome.FirstPhaseUnique` | src/denomination_functions.cpp:231-245 | what the first phase leaves behind is determined by the values, the coins held, the target and the denomination it starts from |
| `ChangeOutcome.AlternativeUnique` | src/denomination_functions.cpp:231-291 | the four phases lead to one selection only |
| `ChangeOutcome.FromTopUnique` | src/denomination_functions.cpp:354-371 | covering from the top leads to one selection only |
| `ChangeOutcome.OutcomeUnique` | src/denomination_functions.cpp:309-388 | the relation that calculateChange is proved to meet has one change count and one selection for every input |
| `ChangeOutcome.TensOutcome` | src/denomination_functions.cpp:309-388 | with values 1, 5, 10, 50, 100, three 10s and one 100 held, target 25 and at most three spends the outcome is one coin of change for three 10s, not the four for the 100 |
| `ChangeOutcome.SpendTens` | src/denomination_functions.cpp:309-388 | calculateChange returns it |
| `Spending.TopIsFewest` | src/denomination_functions.cpp:354-371 | no selection that covers the target has fewer coins than the cover from the top |
| `Spending.CoverLimit` | src/denomination_functions.cpp:354-371 | the cover from the top keeps a limit on the coins if and only if some covering selection does |
| `Spending.OneCoinOver` | src/denomination_functions.cpp:327-351 | the branch in which one coin is enough |
| `Spending.ManyCoins` | src/denomination_functions.cpp:353-387 | the branch in which no single coin is enough |
| `Mints.TakeFromList` | src/denomination_functions.cpp:106-113 | one pass over the mints takes what greedy takes of that denomination |
| `Mints.GetIdealSpends` | src/denomination_functions.cpp:92-116 | complete: true if and only if some selection of the unused mints is worth exactly the target |
| `Mints.OnePassPicks` | src/denomination_functions.cpp:130-137 | one pass picks distinct unused mints, as many as are wanted and there are |
| `Mints.EndsIff` | src/denomination_functions.cpp:129-138 | the repeated passes of one denomination end if and only if none is wanted or one is unused |
| `Mints.PassesPick` | src/denomination_functions.cpp:129-138 | the passes together pick as many as wanted, and no mint twice if and only if there are enough |
| `Mints.PickFromList` | src/denomination_functions.cpp:130-137 | the loop over the list is one pass |
| `Mints.PickAll` | src/denomination_functions.cpp:129-138 | the do-while loop makes exactly these passes |
| `Mints.SpendsEndIff` | src/denomination_functions.cpp:128-139 | getSpends returns if and only if every wanted denomination has an unused mint |
| `Mints.GetSpends` | src/denomination_functions.cpp:121-141 | whenever it returns: unused mints, as many of every denomination as were to be used, their exact value, and all distinct if and only if the counts are within what is available |
| `Mints.SelectExact` | src/denomination_functions.cpp:402-406 | the fewest unused mints worth exactly the target if any selection is |
| `Mints.SelectWithChange` | src/denomination_functions.cpp:415-424 | whenever it ends: one mint for each coin of the outcome of calculateChange, worth more than the target, with the greedy change count for the excess, or none; the limit on spends is kept if and only if some selection of the held coins keeps it |
| `Mints.SelectMintsFromList` | src/denomination_functions.cpp:394-426 | it ends if every held denomination has an unused mint, and whenever it ends the value and change count reported are those of the mints returned; an exact selection of the fewest mints if it is within the limit, otherwise its size is reported and mints are selected with change, within the limit if and only if some selection of the held coins is; change is found whenever it must be |
| `Mints.ChangePositive` | src/denomination_functions.cpp:304-308 | change for an amount that the smallest denomination fits into is at least one coin |
| `Mints.LimitPassed` | src/denomination_functions.cpp:390-426 | for three mints worth 5, a target of 12 and a limit of two every selection that meets the contract has three mints |
| `Mints.ThreeOfTwo` | src/denomination_functions.cpp:394-426 | the code does return such a selection |
| `Cuckoo.SetupOk` | src/cuckoocache.h:315-329 | the table after setup is in order, empty and within the load bound |
| `Cuckoo.EpochCheckMakesRoom` | src/cuckoocache.h:264-296 | after the epoch check the load bound has room for one more entry of the current epoch; no element moves |
| `Cuckoo.PutKeepsInv` | src/cuckoocache.h:384-391 | putting an element into one of its own slots keeps every element in one of its own slots, at most once |
| `Cuckoo.SwapCarries` | src/cuckoocache.h:406-415 | one displacement: table and element in hand together still make up the goal, epoch flags included |
| `Cuckoo.FreeSlotInserts` | src/cuckoocache.h:383-391 | a free slot ends the chain: no live element is lost, at most the erased one the slot still held is forgotten |
| `Cuckoo.DroppingInserts` | src/cuckoocache.h:382-416 | out of rounds exactly the element in hand is lost |
| `Cuckoo.DisplacedExact` | src/cuckoocache.h:382-416 | however long the chain: nothing live is lost if it meets a free slot, exactly one element of old plus new if it runs out of rounds |
| `Cuckoo.NextGoesTo` | src/cuckoocache.h:406-406 | with distinct slots a first displacement goes to the second slot, a later one to the slot after the one the element was taken from |
| `Cuckoo.NeverBack` | src/cuckoocache.h:393-404 | with distinct slots a displaced element never returns to the slot it was just taken from |
| `Cuckoo.WayInInserts` | src/cuckoocache.h:382-416 | if the elements that would be displaced one after the other end at one with a free slot within the depth limit, nothing is lost and the new element is live |
| `Cuckoo.SecondSlotWayIn` | src/cuckoocache.h:382-416 | in particular if the holder of the second slot has a free slot, the slots are distinct and the limit is at least two |
| `Cuckoo.InsertExact` | src/cuckoocache.h:350-416 | the live elements become old plus new less the one lost, if any; none is lost if the element was still in the table or one of its eight slots is free |
| `Cuckoo.Revive` | src/cuckoocache.h:374-381 | an element found in one of its slots, erased or not, is kept for the current epoch and nothing is lost |
| `Cuckoo.InsertedKeepsLoad` | src/cuckoocache.h:368-416 | an insertion into a table with room keeps both epochs within the load bound |
| `Cuckoo.ContainsExact` | src/cuckoocache.h:443-453 | contains finds exactly the retained elements, erased ones not yet overwritten included; erasing removes exactly that element from the live ones |
| `Cuckoo.ContainsKeepsLoad` | src/cuckoocache.h:443-453 | lookups, erasing or not, keep the load bound |
| `Cuckoo.Cache.constructor` | src/cuckoocache.h:315-329 | an empty cache in order |
| `Cuckoo.Cache.CountRecent` | src/cuckoocache.h:270-275 | the number of live entries of the current epoch |
| `Cuckoo.Cache.CheckEpoch` | src/cuckoocache.h:264-296 | exactly the specified epoch check, told slot by slot: when the old epoch is due, live entries of it may be erased and those of the current one become old; it leaves room for one insertion |
| `Cuckoo.Cache.Age` | src/cuckoocache.h:281-285 | the old epoch may be erased and the current one becomes old |
| `Cuckoo.Cache.Insert` | src/cuckoocache.h:368-416 | exactly the specified insertion after its epoch check: live elements are old plus new, less the one in hand if the chain runs out of rounds, and the cache stays in order and within the load bound; nothing is lost whenever the displacements lead to a free slot within the limit |
| `Cuckoo.Cache.Displace` | src/cuckoocache.h:382-416 | the displacement loop leaves exactly the table of the specified chain, whose direction is Cuckoo.NextGoesTo |
| `Cuckoo.Cache.Round` | src/cuckoocache.h:383-415 | one round takes a free slot, or changes places with the holder of the second slot or of the one after the slot it was taken from, as the chain does |
| `Cuckoo.Cache.Lookup` | src/cuckoocache.h:443-453 | found if and only if retained; only the live set changes, and only by an erased element |
| `Cuckoo.Run` | src/cuckoocache.h:264-453 | in every run current-epoch entries plus the counter stay within epoch_size + max(1, epoch_size / 16), and all live entries within twice that |
| `Limbs.WrapsIsMod` | src/arith_uint256.h:33-34 | the congruence used in the contracts is reduction modulo 2^BITS |
| `Limbs.ValueInjective` | src/arith_uint256.h:225-226 | equal numbers of one width have equal limbs, so comparing memory compares numbers |
| `Limbs.SumWraps` | src/arith_uint256.h:140-150 | the carry loop is addition modulo 2^BITS |
| `Limbs.NegatedIs` | src/arith_uint256.h:82-89 | complement and increment is negation modulo 2^BITS |
| `Limbs.DifferenceWraps` | src/arith_uint256.h:152-156 | adding the negation is subtraction modulo 2^BITS |
| `Limbs.NextIs` | src/arith_uint256.h:178-185 | the prefix ++ adds one and wraps at the top |
| `Limbs.PreviousNext` | src/arith_uint256.h:178-202 | ++ and -- undo each other on every number |
| `LimbOps.RowExact` | src/arith_uint256.cpp:79-86 | one row of the schoolbook product is exact up to its last carry |
| `LimbOps.AccumulatorFits` | src/arith_uint256.cpp:82-84 | the 64-bit accumulator never overflows and its high half is again a limb |
| `LimbOps.RowWraps` | src/arith_uint256.cpp:77-87 | after each row the limbs stand for the product of the limbs taken so far modulo 2^BITS |
| `LimbOps.ShiftLeftWraps` | src/arith_uint256.cpp:28-43 | the limb-wise left shift multiplies by a power of two modulo 2^BITS, for every shift count |
| `LimbOps.ShiftRightIs` | src/arith_uint256.cpp:45-60 | the limb-wise right shift divides by a power of two, rounding down, for every shift count |
| `LimbOps.FirstDifference` | src/arith_uint256.cpp:116-126 | the first differing limb from the top decides the order of the numbers |
| `LimbOps.TopLimb` | src/arith_uint256.cpp:213-226 | the top bit of the top non-zero limb gives the bit length of the number |
| `ArithUint.Add` | src/arith_uint256.h:140-150 | the sum modulo 2^BITS, also when a number is added to itself; the carry is at most one |
| `ArithUint.Increment` | src/arith_uint256.h:178-185 | the successor, wrapping at the top |
| `ArithUint.Decrement` | src/arith_uint256.h:195-202 | the predecessor, wrapping at zero |
| `ArithUint.Negate` | src/arith_uint256.h:82-89 | a new number: 2^BITS minus the operand, or zero for zero |
| `ArithUint.Subtract` | src/arith_uint256.h:152-156 | the difference modulo 2^BITS, also when a number is subtracted from itself |
| `ArithUint.MultiplyWord` | src/arith_uint256.cpp:62-72 | the product with a 32-bit factor modulo 2^BITS |
| `ArithUint.AddRow` | src/arith_uint256.cpp:80-85 | one row of the product, in place |
| `ArithUint.Multiply` | src/arith_uint256.cpp:74-88 | the product modulo 2^BITS when the factors are different objects; a number multiplied by itself in place becomes zero, because the target is cleared before the factor is read |
| `ArithShift.ShiftLeft` | src/arith_uint256.cpp:28-43 | multiplication by 2^shift modulo 2^BITS |
| `ArithShift.ShiftRight` | src/arith_uint256.cpp:45-60 | the floor of division by 2^shift |
| `ArithShift.CompareTo` | src/arith_uint256.cpp:116-126 | the sign is that of comparing the numbers, zero exactly for equal limbs |
| `ArithShift.BitLength` | src/arith_uint256.cpp:213-226 | the position of the highest set bit plus one, or zero |
| `ArithDivide.SetBit` | src/arith_uint256.cpp:107-107 | setting a quotient bit whose lower bits are clear adds that power of two |
| `ArithDivide.TakeAway` | src/arith_uint256.cpp:104-111 | taking the aligned divisor away keeps quotient times divisor plus rest equal to the dividend |
| `ArithDivide.Divided` | src/arith_uint256.cpp:104-113 | when the loop ends the quotient is the floor and the rest is the remainder |
| `ArithDivide.Round` | src/arith_uint256.cpp:105-110 | one round keeps the division invariant one bit further down |
| `ArithDivide.Divide` | src/arith_uint256.cpp:90-114 | for every non-zero divisor the floor of the quotient, also when a number is divided by itself in place; division by zero is reported and leaves the target cleared |
| `Compact.OverflowExact` | src/arith_uint256.cpp:286-289 | overflow is reported if and only if mantissa times 256^(size-3) is at least 2^256 |
| `Compact.RoundTrip` | src/arith_uint256.cpp:273-314 | the value of a compact made from n never exceeds n, falls short by less than n / 2^15, is zero only for zero, and carries the sign exactly for negative non-zero numbers |
| `Compact.FixedPoint` | src/arith_uint256.cpp:273-314 | the value of a compact that was made from a number goes back to that compact |
| `Compact.ComesBackIff` | src/arith_uint256.cpp:273-314 | setting a number from a compact and getting its compact gives the same one if and only if that is canonical (no needless zero byte, nothing cut off by a small size, zero only as 0) and its value fits 256 bits |
| `Compact.NotCanonical` | src/arith_uint256.cpp:273-314 | 0x04000012 means 0x1200, whose compact is 0x02120000 |
| `Compact.Published` | src/test/arith_uint256_tests.cpp:764-802 | 0x01fedcba means 0x7e and 0x04923456 means 0x12345600, both signed; 0x80 makes 0x02008000 and -0x12345600 makes 0x04923456 |
| `Compact.MantissaBounds` | src/arith_uint256.cpp:295-302 | the mantissa of a non-zero number has its leading byte in place and fits 24 bits |
| `Compact.BytesIs` | src/arith_uint256.cpp:295-295 | the byte size is b exactly between 256^(b-1) and 256^b |
| `Compact.SetCompact` | src/arith_uint256.cpp:273-291 | the value modulo 2^256, overflow exactly when it does not fit, negative exactly when the sign bit is set and the value is not zero |
| `Compact.GetCompact` | src/arith_uint256.cpp:293-314 | the compact of the number; both assertions hold |
| `Bech32Checksum.PolyMod` | src/bech32.cpp:37-94 | the loop computes the register of the specification |
| `Bech32Checksum.GeneratorIs` | src/bech32.cpp:87-91 | the five constants are the products of 1, 2, 4, 8 and 16 in GF(32) with the lower part of the generator |
| `Bech32Checksum.StepIsRemainder` | src/bech32.cpp:58-91 | one step is exactly one step of polynomial division by the generator over GF(32) |
| `Bech32Checksum.FedLinear` | src/bech32.cpp:37-94 | the register is linear: the register of a difference is the difference of the registers |
| `Bech32Checksum.StepInjective` | src/bech32.cpp:74-92 | reading a zero symbol never clears a non-zero register |
| `Bech32Checksum.SixPacked` | src/bech32.cpp:74-92 | six symbols read into a clear register are simply packed |
| `Bech32Checksum.BurstDetected` | src/bech32.cpp:45-50 | two different inputs that differ only within six consecutive symbols leave different registers, whatever was read before |
| `Bech32.ChecksumExact` | src/bech32.cpp:118-139 | a checksum verifies if and only if it is the one CreateChecksum makes |
| `Bech32.SixErrorsDetected` | src/bech32.cpp:118-125 | two different data parts of one length under one prefix that differ only within six consecutive symbols do not both verify |
| `Bech32Roots.TimesEmbedded` | src/bech32.cpp:52-56 | the product of GF(32) the register uses is the product of GF(1024) under the embedding that sends a to z^924 |
| `Bech32Roots.Roots` | src/bech32.cpp:45-50 | three consecutive powers of a primitive element of GF(1024) are roots of the generator |
| `Bech32Roots.RemainderAtRoot` | src/bech32.cpp:63-91 | at a root, one step of the register multiplies the value of its polynomial by the root and adds the symbol |
| `Bech32Field.NoTurn` | src/bech32.cpp:45-50 | z has order 1023: no fewer steps lead an element other than zero back to itself |
| `Bech32Field.Vandermonde` | src/bech32.cpp:45-50 | three terms whose sums vanish with the zeroth, first and second powers of different weights are all zero |
| `Bech32Errors.ThreeErrorsDetected` | src/bech32.cpp:45-50 | two inputs of one length that differ in one to three symbols, all within a window of 1023, leave different registers, whatever was read before |
| `Bech32Errors.NotBothVerify` | src/bech32.cpp:118-125 | two such data parts do not both verify under one prefix |
| `Bech32Errors.DamagedDoesNotDecode` | src/bech32.cpp:162-192 | a string that decodes no longer does once one to three characters after its separator are replaced by others, the separator and the other case of the same letter excepted |
| `Bech32.DecodeEncode` | src/bech32.cpp:147-192 | for every non-empty prefix of characters 33..126 without upper case and every list of 5-bit values of total length at most 1023, decoding returns what was encoded |
| `Bech32.EncodeDecode` | src/bech32.cpp:147-192 | encoding what was decoded gives the string back in lower case |
| `Bech32.CaseDoesNotMatter` | src/bech32.cpp:162-192 | a string all in one case decodes as its lower-case form |
| `Bech32.DecodesExactly` | src/bech32.cpp:147-192 | a string decodes to a prefix and values if and only if it is in one case, at most 1023 long, and its lower-case form is what Encode makes of them |
| `Bech32.ExpandHRP` | src/bech32.cpp:103-115 | index by index: 2 n + 1 values, c / 32 at i, zero at n, c mod 32 at n + 1 + i |
| `Bech32.CharsetIs` | src/bech32.cpp:11-13 | the character of every symbol, in order |
| `Bech32Prefix.OneCharacterDetected` | src/bech32.cpp:103-125 | two prefixes that differ in one character do not both verify with the same data part of any length |
| `Bech32Prefix.MixedErrorsDetected` | src/bech32.cpp:103-125 | two prefixes of one length and two data parts of one length do not both verify if one to three symbols differ within 1023, a differing character of the prefix counting for two |
| `Bech32Prefix.ShortestExample` | src/bech32.cpp:103-192 | the encoding of nothing under the prefix a is a12uel5l, and that decodes to it |
| `Bech32.CreateChecksum` | src/bech32.cpp:128-139 | the six groups of the register after six zeros, with one added |
| `Bech32.VerifyChecksum` | src/bech32.cpp:118-125 | true exactly if the register ends at one |
| `Bech32.Encode` | src/bech32.cpp:147-159 | the encoding, or the empty string if a value has more than five bits |
| `Bech32.Decode` | src/bech32.cpp:162-192 | the decoding of the specification, empty on every malformed string |
| `Powers.BytesFitDigits` | src/base58.cpp:100-101 | n bytes fit n * 138 / 100 + 1 digits of base 58, for every n, from 256^8 <= 58^11 |
| `Powers.DigitsFitBytes` | src/base58.cpp:38-39 | n digits fit n * 733 / 1000 + 1 bytes, for every n, from 58^71 <= 256^52 |
| `Base58.MulAddExact` | src/base58.cpp:47-54 | a pass over the buffer multiplies and adds exactly and leaves no carry if the result fits |
| `Base58.Pass` | src/base58.cpp:104-111 | the inner loop, stopping early at leading zeros, is the full pass |
| `Base58.Feed` | src/base58.cpp:104-114 | one more digit is taken in and the assertion that no carry is left holds |
| `Base58.Emit` | src/base58.cpp:117-127 | skipping leading zeros of the buffer gives the shortest digits of its number |
| `Base58.EncodeBase58` | src/base58.cpp:90-128 | the encoding of the specification for every byte sequence; the carry assertion never fails |
| `Base58.DecodeBase58` | src/base58.cpp:25-73 | the decoding of the specification for every string, read up to its first zero byte; the carry assertion never fails |
| `Base58.DecodeBody` | src/base58.cpp:40-57 | the digit loop: up to the first space, or failure at a foreign character |
| `Base58.AlphabetIs` | src/base58.cpp:23-23 | the 58 characters in order: the digits without 0, the capitals without I and O, the small letters without l |
| `Base58.Example` | src/base58.cpp:90-128 | two zero bytes and the letter a are written as 112g, and that is read back |
| `Base58.DecodeEncode` | src/base58.cpp:25-128 | decoding inverts encoding on every byte sequence, leading zeros included |
| `Base58.EncodeDecodeWord` | src/base58.cpp:25-128 | every string of alphabet characters decodes, and encoding the result gives it back |
| `Base58.EncodeDecode` | src/base58.cpp:25-128 | encoding inverts decoding on every string that decodes, up to the spaces around it |
| `Base58.WordDecides` | src/base58.cpp:25-73 | a string that decodes is a word of the alphabet between spaces, and decodes as that word does |
| `Base58.EncodedIsWhole` | src/base58.cpp:25-128 | no encoding contains a zero byte, so all of it is read back |
| `Base58.CheckRoundTrip` | src/base58.cpp:140-164 | what EncodeBase58Check makes is accepted and gives the payload back |
| `Base58.CheckAccepts` | src/base58.cpp:149-164 | every accepted string is, between the spaces around it, exactly what EncodeBase58Check makes of the payload |
| `Bloom.InsertedContains` | src/bloom.cpp:69-110 | an inserted key is found, and every key found before still is |
| `Bloom.BothHold` | src/bloom.cpp:278-290 | after every history each of the two filters surely holds a known number of the latest keys |
| `Bloom.LastKeysFound` | src/bloom.cpp:265-304 | after every history since the last reset each of the last nElements keys is found, across staggered clears and counter wrap-around |
| `Bloom.MarkedExact` | src/bloom.cpp:73-78 | after an insertion exactly the bits of before and those of the key are set |
| `Bloom.BothHoldOnly` | src/bloom.cpp:278-290 | after every history each of the two filters has exactly the bits of a known number of the latest keys, and no others |
| `Bloom.ExactAnswer` | src/bloom.cpp:278-304 | a key is found if and only if each of its bits is a bit of one of the last n + k mod n of the k keys inserted: older ones are forgotten |
| `Bloom.BloomFilter.Insert` | src/bloom.cpp:69-79 | exactly the bits of the key are set, unless the filter is full |
| `Bloom.BloomFilter.Contains` | src/bloom.cpp:95-110 | found exactly if the filter is full, or not empty with all bits of the key set |
| `Bloom.BloomFilter.Clear` | src/bloom.cpp:126-131 | no bit set, not full, empty |
| `Bloom.BloomFilter.Reset` | src/bloom.cpp:133-137 | cleared, with the new tweak |
| `Bloom.RollingBloomFilter.constructor` | src/bloom.cpp:265-276 | an empty history |
| `Bloom.RollingBloomFilter.Insert` | src/bloom.cpp:278-290 | the filters stay what the history makes them |
| `Bloom.RollingBloomFilter.Contains` | src/bloom.cpp:298-304 | the reply of the filter in charge: true for each of the last nElements keys, and exactly if the latest keys have all bits of the key |
| `Bloom.RollingBloomFilter.Reset` | src/bloom.cpp:312-318 | an empty history again |
| `Compressor.DecompressCompress` | src/compressor.cpp:138-181 | decompression inverts compression on every natural number |
| `Compressor.CompressDecompress` | src/compressor.cpp:138-181 | compression inverts decompression on every natural number, so both are bijections |
| `Compressor.Published` | src/test/compress_tests.cpp:41-46 | the compressed forms of nothing, one unit, 0.01, 1, 50 and 21 million coins |
| `Compressor.CompressedBound` | src/compressor.cpp:138-155 | an amount grows at most ninefold |
| `Compressor.AmountsFit` | src/compressor.cpp:138-155 | every amount up to (2^64 - 1) / 9 has a compressed form that fits 64 bits |
| `Compressor.FittingComesBack` | src/compressor.cpp:138-181 | in 64-bit arithmetic every amount whose compressed form fits comes back |
| `CompressorWords.WordRoundTrip` | src/compressor.cpp:138-181 | in 64-bit arithmetic an amount n comes back if and only if its last digit is zero or 90 (n / 10) + 10 (n mod 10) - 9 is below 2^64 |
| `CompressorWords.LostWhenOver` | src/compressor.cpp:138-181 | no amount whose compressed form overflows comes back |
| `Compressor.LargeAmountLost` | src/chainparams.cpp:180-180 | an amount below the configured maximum that does not come back |
| `Compressor.CompressAmount` | src/compressor.cpp:138-155 | the compressed form modulo 2^64; the digit assertion holds |
| `Compressor.DecompressAmount` | src/compressor.cpp:157-181 | the amount modulo 2^64 |

## Left out

- RPC and HTTP server, logging, initialisation, GUI signals, the database wrapper and file handling: plumbing around the modelled logic.
- Keys, encryption, signatures and all hash functions: hashes are arbitrary functions here.
- Block index, chain selection, masternode payments, budgets and sporks.
- Locks of the address manager; ids are not limited to 32 bits.
- AddrDisk.Serialize: the stream is a value of lists; its byte encoding, the stored key and the xor that marks the bucket count are not modelled.
- AddrDisk.Unserialize: the stream is a value of lists here too, so that no key size is tested and no counter is negative.
- `Clear` on an address manager that is not fresh: it does not empty mapInfo, mapAddr or the collision set, so runs start from a fresh object.
- AddrRuns.SelectFindsEntry: that the probing loop has something to find is proved, not that it ends; `GetChance` and the loop depend on floating point and chance.
- Writes below the top of a cache stack, and `AccessCoin` and memory accounting of the caches: a write under an existing child breaks the source's own assumptions, the rest adds easy members.
- Fairness of the mutex and of condition variables: termination of Wait is stated for steps that change the state. Shutdown by fQuit is part of the state machine but never set, as in the source.
- Mints.GetSpends: stated where the source returns; `Mints.SpendsEndIff` says exactly when that is. The callers report that it does not.
- Spending.CalculateChange: amounts are unbounded integers; 64-bit overflow of amounts is not modelled.
- `bit_packed_atomic_flags` and the atomicity of concurrent cuckoo lookups: flags are plain booleans.
- Cuckoo.SetupOk: the size is 2^depth for any depth; the floating-point logarithm that picks the depth from the requested size is not modelled.
- Cuckoo.Cache.constructor: the depth is an argument; how it is computed from the requested size is not modelled, as above.
- `getdouble`, hex conversion and the bitwise operators of base_uint.
- Bech32Errors.ThreeErrorsDetected: that four errors within 89 symbols are detected too (src/bech32.cpp:48-49) is the outcome of a search over all such patterns, not of the structure of the code, and is not proved.
- Bloom filter sizing, `Merge`, `IsRelevantAndUpdate` and the full/empty update after deserialisation; the rolling filter needs a bit vector that is not empty, as the source's division by its size does.
- Script compression and the serialisation of transaction outputs.
