# dcrdata, modelled in Dafny

dcrdata indexes the Decred block chain. This project models the parts of it
whose correctness spans many calls, and proves what they promise.

- **The ticket pool.** `PoolHistory` says what a history of pool diffs means: the
  pool after h blocks is the replay of the first h diffs. `TicketPool` is the
  class that moves a cursor over the history, `DiffCodec` and `DiffStore` its
  records and its disk, `PoolRuns` and `StoreRuns` its runs. `LiveTickets` and `StakeDatabase`
  are the second, priced copy kept as blocks connect and disconnect,
  `ChainMonitor` drives both through reorganisations, and `StakeRecovery` opens
  them again after a crash. The stake node is an
  oracle: the diff of a block is a function of the chain prefix ending in it, and
  the price of a ticket a fixed function of its hash.
- **The fork point.** `ChainAncestor` is `CommonAncestor` and `SideChainFull` on
  an arbitrary tree of blocks.
- **Fast forms against simple ones.** `Heap`, `BlockQueue` and `ApiCache`: the
  bounded priority queue and the block cache over it, against "the greatest
  heights offered". `DexBook` and `DexNotes`: the
  order book replica, against the sum of the booked orders and what each note says. `DayBins`, `Charts`,
  `ChartRuns` and `MidnightRuns`: incremental day binning, against one pass over the chain.
  `AddressRows`, `RowMerging`, `RowRanges`, `RowPages` and `UnspentView`: merging,
  counting and paging of address rows. `PurgeSizes`, `PurgeOutcomes`,
  `CachedAddresses` and `AddressCacheRuns`: their cached twin, whose purge is a
  relation because it follows the order of a map. `Subsidy` and `DecredSchedule`:
  the total subsidy summed by intervals, against the sum over blocks.
- **Try-locks.** `TryLock` and `CacheLock` are the locks as interleaved steps of
  any number of callers, with channels as numbers.

Objects that the program updates in place are classes with the same fields;
`Valid`, `Coherent` or `Tracks` ties their fields together, and each method is
proved against a function of the state before it. Integers are unbounded except
where their width matters: 64-bit lengths, offsets and keys of the disk records,
64-bit differences of order quantities, 64-bit chart sums.

Some promises hold only under a condition. The main ones, each stated with the
exact condition and with an input or a run that fails it:

- Undoing a diff restores the pool if and only if the diff was valid for it
  (`UndoRestoresIff`, `InvalidNotRestored`).
- A database opened after a crash tracks its chain if and only if disk and chain
  agree up to the lower of their heights (`Restart`, `NewStakeDatabase`). `Trim`
  leaves records on disk, so a failed store can leave them disagreeing
  (`StaleDiffReturns`).
- A store that writes have failed on still loads if and only if no height on it is
  without the one below (`RunLoadsIff`, `AlwaysLoadsIff`, `GapLeft`, `GapFilled`).
- A block refused for its height leaves the cache of recent blocks true if and
  only if it is a block of the chain that is yet to mature (`RefusedKeepsIff`,
  `RefusedIsTaken`).
- After a reorganisation the block cache covers the same heights as that of a
  fresh database if and only if the ancestors it needs were not forgotten
  (`SameHeightsIff`, `ReorgFromGenesis`, `ShorterChainLosesBlock`).
- `minHeight` of the queue stays exact through an eviction if and only if the
  height evicted remains (`MinStaysExactIff`, `MinHeightGoesStale`).
- The order book stays accurate if and only if remaining quantities do not grow
  and booked IDs are new or used up (`UpdateKeepsIff`, `BookKeepsIff`,
  `DishonestFails`).
- Merging a range gives the page of the full merge if and only if no skipped
  transaction is begun again within it (`RangeIsPageIff`, `StragglerIsSplit`). The
  comment on `MergeRowsRange` promises the page for every input.
- Merging keeps the balance if and only if the rows whose validity is not that of
  their transaction's first row cancel out (`MergingKeepsUnspentIff`,
  `MixedValidityDiffers`).
- The unspent page taken from rows is the one taken from compact rows if and only
  if all credits are unspent, or at most one and it comes first
  (`UnspentAgreesIff`, `SpentCreditListed`).
- The total subsidy is the per-block sum on every schedule if and only if the
  activation heights are well placed (`RightIffWellPlaced`, `EarlyFails`,
  `UnpreparedFails`, `ReversedFails`).
- The second loop of the purge of the address cache never ends if and only if it
  starts stuck (`NeverEndsIff`), and a run leads there (`MayHangIff`,
  `HangReached`).
- A successful update of a cached address leaves it cached if and only if the
  purge cannot take it (`UpdateKeptIff`, `LostUpdate`).
- The days of the charts stay right through a reorganisation if and only if it
  undoes no more than two of them (`ReorgRightIff`, `ReorgFollowsIff`,
  `ThreeDaysUndone`).
- Days binned by several calls are those of a single call if and only if no day
  that a later call began with has a block exactly at midnight (`AgreeIff`,
  `MidnightSplits`).

## Model

| member | source | states |
|---|---|---|
| `PoolHistory.SizeCheckPassesIff` | stakedb/ticketpool.go:732-752 | the size check after applying a diff passes if and only if the duplicate or present entries of In are as many as the repeated or absent entries of Out |
| `PoolHistory.ValidDiffSizes` | stakedb/ticketpool.go:732-798 | a valid diff passes the size check, and applying it with In and Out exchanged gives the pool back |
| `PoolHistory.UndoRestoresIff` | stakedb/ticketpool.go:780-798 | for any diff at all, retreating over it restores the pool if and only if In is disjoint from the pool and Out is contained in the pool with In |
| `PoolHistory.InvalidNotRestored` | stakedb/ticketpool.go:780-798 | inserting a ticket already live loses it on the way back, and deleting an absent one makes it appear |
| `PoolHistory.ValidAppend` | stakedb/ticketpool.go:526-529 | a history with one diff more is valid if and only if the history is and the diff is valid for its replay |
| `PoolHistory.ReplayStep` | stakedb/ticketpool.go:732-752 | the pool after i + 1 diffs is the pool after i with diff i applied |
| `TicketPool.TicketPool.constructor` | stakedb/ticketpool.go:224-325 | a pool opened on a store that mirrors a history has that history, cursor 0 and an empty pool, and is coherent |
| `TicketPool.TicketPool.ApplyDiff` | stakedb/ticketpool.go:823-844 | the insertion and deletion loops give the pool with In added and then Out removed |
| `TicketPool.TicketPool.Advance` | stakedb/ticketpool.go:732-752 | refuses at the tip; otherwise applies the next diff, moves the cursor, and reports success exactly when the sizes add up, for any history |
| `TicketPool.TicketPool.Retreat` | stakedb/ticketpool.go:780-798 | refuses at zero; otherwise applies the last diff in reverse and reports success exactly when the sizes add up, for any history |
| `TicketPool.TicketPool.StepsKeepCoherence` | stakedb/ticketpool.go:732-798 | on a valid history a step either way keeps the pool equal to the replay of the diffs before the cursor, and the size check cannot fail |
| `TicketPool.TicketPool.AdvanceTo` | stakedb/ticketpool.go:755-767 | moves the cursor to the larger of itself and the height; refuses a height over the tip without change |
| `TicketPool.TicketPool.RetreatTo` | stakedb/ticketpool.go:810-821 | moves the cursor to the smaller of itself and the height; refuses a height out of range without change |
| `TicketPool.TicketPool.Trim` | stakedb/ticketpool.go:532-555 | drops the last diff and returns it, keeps the pool coherent, and pulls the cursor to two below the old tip, not below zero; nothing happens to an empty history; a cursor at zero allows any history |
| `TicketPool.TicketPool.Append` | stakedb/ticketpool.go:650-659 | accepts only the height after the tip; the diff joins memory and, if the store works, the disk, where it replaces the record of its height or is added |
| `TicketPool.TicketPool.StoreLast` | stakedb/ticketpool.go:593-648 | storing the newest diff under its height makes the disk hold all of memory; a failed store changes nothing |
| `TicketPool.TicketPool.AppendAndAdvancePool` | stakedb/ticketpool.go:662-673 | appends a valid diff and moves the cursor over it if the store works; the pool stays the replay of the diffs before the cursor |
| `TicketPool.TicketPool.Pool` | stakedb/ticketpool.go:707-729 | wherever the cursor was, returns the replay of the first h diffs exactly when h is between zero and the tip |
| `TicketPool.TicketPool.AdvanceToTip` | stakedb/ticketpool.go:770-777 | on a valid history it never fails and leaves the pool equal to the replay of all diffs |
| `PoolRuns.NextKeepsValid` | stakedb/ticketpool.go:526-555 | each operation keeps the cursor between zero and the number of diffs and the history valid |
| `PoolRuns.RunKeepsValid` | stakedb/ticketpool.go:650-777 | so does every legal run of Append, AppendAndAdvancePool, Trim, Pool and AdvanceToTip |
| `PoolRuns.TrimUndoesAppend` | stakedb/ticketpool.go:532-555 | Trim after Append restores the history and moves the cursor only if it was at the tip |
| `PoolRuns.Perform` | stakedb/ticketpool.go:650-777 | the methods do what the run model says, to memory and to the disk, and Pool answers with the replay |
| `PoolRuns.Run` | stakedb/ticketpool.go:650-777 | over every legal run the pool is coherent and the history valid, and the disk is what the successful writes made of it; if every store worked, it holds memory |
| `PoolRuns.Reopen` | stakedb/ticketpool.go:224-325 | reopening succeeds if and only if the store mirrors a history, and then loads just that; otherwise it panics at a gap or fails to decode; after runs with working stores it extends memory |
| `PoolRuns.StaleDiffReturns` | stakedb/ticketpool.go:532-659 | Trim leaves its record on disk: if the next diff of that height is not stored, the disk still holds the old one, which reopening loads |
| `StoreRuns.RunLoadsIff` | stakedb/ticketpool.go:396-659 | after every legal run, whatever stores fail, the disk loads if and only if no height on it, from before or from a successful write, is without the one below |
| `StoreRuns.AlwaysLoadsIff` | stakedb/ticketpool.go:396-659 | a legal run on a disk without gaps may be cut short anywhere and the disk still loads if and only if every successful write is at most one above the highest before it |
| `StoreRuns.NeverGapIff` | stakedb/ticketpool.go:396-659 | the same of the heights alone |
| `StoreRuns.GapLeft` | stakedb/ticketpool.go:486-499 | a run from an empty store: the write of height 1 fails, that of height 2 succeeds, and the store does not load |
| `StoreRuns.GapFilled` | stakedb/ticketpool.go:532-659 | going on, both diffs are trimmed and height 1 is written: the store loads again, with a diff above those in memory |
| `Bytes.Uint64RoundTrip` | stakedb/ticketpool.go:557-561 | reading the eight bytes of a 64-bit number gives the number |
| `Bytes.LexIsNumeric` | stakedb/ticketpool.go:557-561 | byte strings of one length are ordered lexicographically as the numbers they stand for |
| `Bytes.HeightKeyOrder` | stakedb/ticketpool.go:557-561 | height keys are distinct and sort as the heights do |
| `Bytes.HashRoundTrip` | stakedb/ticketpool.go:564-583 | the 32 bytes of a hash determine it |
| `DiffCodec.HashesOfFlatten` | stakedb/ticketpool.go:564-583 | hashes written one after another are read back in order |
| `DiffCodec.WriteHashes` | stakedb/ticketpool.go:564-583 | the write loop appends the hashes to the buffer |
| `DiffCodec.EncodeDiff` | stakedb/ticketpool.go:564-583 | the buffer loops produce the encoding, of 16 bytes and 32 for each hash |
| `DiffCodec.LayoutIs` | stakedb/ticketpool.go:564-583 | the number of tickets coming in, those at 32 bytes each, then the same of the tickets going out |
| `DiffCodec.OffsetWhenReadable` | stakedb/ticketpool.go:429-484 | the 64-bit offset of the second length does not wrap when the first list fits in the value |
| `DiffCodec.ReadHashes` | stakedb/ticketpool.go:429-484 | the read loop succeeds exactly when enough bytes remain, and returns the hashes they spell |
| `DiffCodec.DecodeDiff` | stakedb/ticketpool.go:429-484 | the decoding loop accepts exactly what the codec accepts, wrap-around of the offset included |
| `DiffCodec.DecodeEncode` | stakedb/ticketpool.go:429-583 | decoding an encoding gives the diff back |
| `DiffCodec.EncodeDecode` | stakedb/ticketpool.go:429-583 | an accepted byte string is the encoding of what it decodes to |
| `DiffCodec.DecodeIffEncoding` | stakedb/ticketpool.go:429-583 | a byte string decodes to a diff if and only if it is its encoding |
| `DiffStore.StoreMirrors` | stakedb/ticketpool.go:586-600 | storing at the height after the tip keeps the stored heights 1..M without gap, with that record replaced or added |
| `DiffStore.StoreIs` | stakedb/ticketpool.go:586-600 | the record is under the eight bytes that spell the height, and no other record changes |
| `DiffStore.StoreRecords` | stakedb/ticketpool.go:586-600 | a write at any height adds or replaces that record and no other |
| `DiffStore.NextHeight` | stakedb/ticketpool.go:410-499 | iterating in key order, the next record is the next height, so the gap panic is out of reach |
| `DiffStore.SameMirror` | stakedb/ticketpool.go:396-505 | a store mirrors at most one history |
| `DiffStore.MirrorsIffLists` | stakedb/ticketpool.go:396-505 | a store mirrors a history if and only if its records are that history at the heights 1, 2 and so on |
| `DiffStore.LoadsIff` | stakedb/ticketpool.go:486-499 | a store loads if and only if every height on it but 1 has the one below on it |
| `DiffStore.MirrorsWellKeyed` | stakedb/ticketpool.go:557-583 | the records of a mirrored store have eight-byte keys and values that fit in memory |
| `DiffStore.LoadRecord` | stakedb/ticketpool.go:410-499 | one turn of the loading loop succeeds on every store that mirrors a history |
| `DiffStore.LoadAllPoolDiffs` | stakedb/ticketpool.go:396-505 | loading succeeds if and only if the store mirrors a history, and then returns that history |
| `Common.SumTakesOut` | stakedb/stakedb.go:641-676 | the pool value does not depend on the order of the tickets |
| `LiveTickets.ApplyBalanced` | stakedb/stakedb.go:641-676 | for any diff, well-formed or not, one application keeps the running total the sum of the cached values |
| `LiveTickets.RunBalanced` | stakedb/stakedb.go:641-685 | so does every run of applied and undone diffs, whatever they hold and whatever values the node reports |
| `LiveTickets.InsertAllIs` | stakedb/stakedb.go:641-665 | of any tickets to insert, those of known value come in at the first value given; tickets already cached keep theirs |
| `LiveTickets.DeleteAllIs` | stakedb/stakedb.go:666-676 | exactly the tickets to delete go out |
| `LiveTickets.ApplyLive` | stakedb/stakedb.go:641-676 | applying a diff with true values keeps the cache the priced copy of the pool |
| `LiveTickets.LiveUnique` | stakedb/stakedb.go:641-676 | a pool has one priced copy: keys, values and total |
| `LiveTickets.UndoRestoresLive` | stakedb/stakedb.go:680-685 | undoDiff after applyDiff of a valid diff restores the cache and the pool value exactly |
| `StakeDatabase.StakeDatabase.constructor` | stakedb/stakedb.go:254-334 | a new database at the genesis block tracks its chain |
| `StakeDatabase.StakeDatabase.ApplyDiff` | stakedb/stakedb.go:641-676 | the loops insert In with the given or fetched values, skipping tickets present or unknown, then delete Out |
| `StakeDatabase.StakeDatabase.UndoDiff` | stakedb/stakedb.go:680-685 | applies the diff with In and Out exchanged, with fetched values |
| `StakeDatabase.StakeDatabase.RememberBlock` | stakedb/stakedb.go:533-553 | caches the block and forgets the one that is now past maturity |
| `StakeDatabase.StakeDatabase.ConnectBlock` | stakedb/stakedb.go:532-638 | caches the block; refuses a low or unacceptable block without other change; otherwise extends the chain, keeps every copy of the pool in step with it, lets in the tickets bought TicketMaturity blocks below, each at its own value, and lets out winners and expired tickets only |
| `StakeDatabase.StakeDatabase.Extend` | stakedb/stakedb.go:566-614 | the diff of the block joins the history and the priced cache, which stay the replay of the chain |
| `StakeDatabase.NewDiffIs` | stakedb/stakedb.go:575-584 | the diff stored for a block is the one its chain prefix determines |
| `StakeDatabase.DiffIs` | stakedb/stakedb.go:534-584 | the diff of block i lets in, in order, the tickets bought TicketMaturity blocks below it, none so early in the chain, and lets out the winners before it and those it lets expire |
| `StakeDatabase.TicketsMature` | stakedb/stakedb.go:534-589 | a connected block changes the live tickets by just those |
| `StakeDatabase.ConnectKeepsLive` | stakedb/stakedb.go:575-589 | after a connect the priced cache is the replay of all diffs of the longer chain |
| `StakeDatabase.DisconnectKeepsLive` | stakedb/stakedb.go:712-739 | after a cache-keeping disconnect it is the replay of the shorter chain |
| `StakeDatabase.StakeDatabase.TrimTo` | stakedb/stakedb.go:722-732 | the trim loop cuts the pool to the height, however far ahead it was, and returns the diffs it removed, last first |
| `StakeDatabase.StakeDatabase.UndoAll` | stakedb/stakedb.go:734-739 | the undo loop undoes the diffs in the order given |
| `StakeDatabase.UndoneAllLive` | stakedb/stakedb.go:722-739 | undoing the diffs of a valid history above a height, last first, leaves the priced copy of the pool at that height |
| `StakeDatabase.StakeDatabase.DisconnectBlock` | stakedb/stakedb.go:704-769 | removes the tip, but not the genesis block, and trims a pool that is ahead; with the cache kept, everything still tracks the chain; with it neglected, the cache is untouched |
| `StakeDatabase.StakeDatabase.DisconnectBlocks` | stakedb/stakedb.go:772-783 | removes count blocks, or all but the genesis block and then fails; everything tracks the chain |
| `StakeDatabase.CacheTracksConnect` | stakedb/stakedb.go:533-553 | connecting keeps every cached block at a height up to the tip equal to the chain block there, and the maturing block findable |
| `StakeDatabase.CacheTracksShorten` | stakedb/stakedb.go:712-769 | so does disconnecting |
| `StakeDatabase.RefusedKeepsIff` | stakedb/stakedb.go:532-563 | a refused block, cached all the same, leaves the cached blocks those of the chain if and only if its height is not one of the chain or it is the chain block there and yet to mature |
| `StakeDatabase.RefusedMaturesIff` | stakedb/stakedb.go:532-563 | the next block takes its maturing tickets from the right block if and only if the refused one was not another block of that height |
| `StakeDatabase.RefusedIsTaken` | stakedb/stakedb.go:532-563 | another block refused at that height is the one they are taken from |
| `StakeDatabase.ConnectOld` | stakedb/stakedb.go:532-563 | ConnectBlock refuses a block not above the tip, and its cache stays true to the chain if and only if height and hash are those of a chain block yet to mature |
| `StakeDatabase.DiffsOfPrefix` | stakedb/stakedb.go:575-584 | a shorter chain has the first of the diffs |
| `StakeDatabase.GoodPrefix` | stakedb/stakedb.go:575-584 | a prefix of a good chain is good |
| `StakeDatabase.StakeDatabase.Open` | stakedb/stakedb.go:272-280 | the fields of a database opened on existing data |
| `StakeRecovery.Level` | stakedb/stakedb.go:292-324 | the repair loops cut the stake node and the pool to the lower of their heights, whatever the records above it |
| `StakeRecovery.PopulateLiveTicketCache` | stakedb/stakedb.go:343-387 | fails exactly if the node does not know a ticket; otherwise the cache is the priced copy of the tickets listed |
| `StakeRecovery.NewStakeDatabase` | stakedb/stakedb.go:254-334 | opening on a stake node and a pool at different heights tracks the chain up to the lower if and only if the two agreed up to it; if they did, it succeeds |
| `StakeRecovery.Restart` | stakedb/stakedb.go:254-334 | reopening succeeds if and only if the disk loads; the database then tracks its chain if and only if disk and chain agreed up to the lower height; if the pool was persisted, the chain, the diffs, the priced cache and the pool value are what they were |
| `ChainMonitor.MaturingFound` | stakedb/stakedb.go:496-508 | the block whose tickets mature is found in the cache or on the main chain |
| `ChainMonitor.ConnectNext` | stakedb/chainmonitor.go:127-141 | connecting the next block of the side chain keeps the database tracking it |
| `ChainMonitor.ConnectSide` | stakedb/chainmonitor.go:123-149 | the connect loop connects the whole side chain, or stops after the first block whose store fails, with a store outcome for each block |
| `ChainMonitor.SwitchToSideChain` | stakedb/chainmonitor.go:94-149 | rewinds to the common ancestor and connects the side chain up to the first block whose store fails; says when there is no side chain, when the rewind fails and when a connect fails, and where the chain is then |
| `ChainMonitor.ConnectOnly` | stakedb/stakedb.go:532-615 | a fresh database that connects the blocks of a chain in order tracks it |
| `ChainMonitor.ReorgMatchesFresh` | stakedb/chainmonitor.go:94-149 | after a reorganisation the diffs, the priced cache and the pool value equal those of a database that connected only the new chain; cached blocks agree wherever both have one, and at all heights if and only if the ancestors needed were still cached |
| `ChainMonitor.SameHeightsIff` | stakedb/stakedb.go:533-553 | which heights are cached agrees with the fresh database if and only if the ancestors within maturity of the new tip are cached |
| `ChainMonitor.AncestorsCachedIff` | stakedb/stakedb.go:533-553 | in terms of heights: if and only if the new tip is not lower, or no ancestor still to mature on the new chain had matured on the old one |
| `ChainMonitor.ReorgFromGenesis` | stakedb/chainmonitor.go:94-149 | for a branch connected from genesis and then reorganised, exactly which heights both databases have cached, and that they are the same if and only if the condition on heights holds |
| `ChainMonitor.ShorterChainLosesBlock` | stakedb/stakedb.go:533-553 | a run: a switch from height 5 to height 4 with maturity 2 leaves block 3 uncached, which the fresh database has |
| `ChainMonitor.Handle` | stakedb/chainmonitor.go:37-149 | a connect, a disconnect or a reorganisation leaves the database tracking the chain it leads to |
| `ChainMonitor.Follow` | stakedb/chainmonitor.go:37-149 | over every run of connects, disconnects and reorganisations, whatever stores fail, the cache holds the replay of all diffs of the remaining chain and the pool value is its sum |
| `ChainAncestor.UpHeight` | rpcutils/rpcclient.go:375-444 | n parents up is n lower |
| `ChainAncestor.MeetBelow` | rpcutils/rpcclient.go:375-444 | chains that share no block but a tip have no common block above their base |
| `ChainAncestor.ApartIsBest` | rpcutils/rpcclient.go:375-444 | so their base is the highest common block strictly below both tips |
| `ChainAncestor.SharedPosition` | rpcutils/rpcclient.go:375-444 | a block on both chains is at the same position in both |
| `ChainAncestor.SharedIsTip` | rpcutils/rpcclient.go:375-444 | a block on both returned chains is the first of both and is one of the tips |
| `ChainAncestor.MissingBlock` | rpcutils/rpcclient.go:375-444 | a block that cannot be fetched means that the tips have no common block |
| `ChainAncestor.CommonAncestor` | rpcutils/rpcclient.go:375-444 | succeeds if and only if the tips have a common block strictly below both within the length limit; the result is the highest, with exactly the linked paths from it to the tips; the loop terminates |
| `ChainAncestor.ReverseSlice` | rpcutils/rpcclient.go:358-362 | reverses the slice in place |
| `ChainAncestor.SideWalkEnds` | rpcutils/rpcclient.go:324-355 | a walk down a side chain meets the main chain in at most one place |
| `ChainAncestor.SideChainFull` | rpcutils/rpcclient.go:324-355 | succeeds if and only if the chain of side-chain parents ends in a main-chain block, and returns exactly that chain, base first |
| `TryLock.StepKeepsInv` | trylock/trylock.go:30-75 | every step that can happen keeps the invariant and does not panic |
| `TryLock.RunKeepsInv` | trylock/trylock.go:30-75 | in every state of every interleaving where only holders unlock, the invariant holds and no step panics |
| `TryLock.MutualExclusion` | trylock/trylock.go:30-75 | at most one caller holds the lock |
| `TryLock.ClosedGrows` | trylock/trylock.go:50-55 | a closed channel stays closed |
| `TryLock.ClosedOnce` | trylock/trylock.go:50-55 | no channel is closed twice |
| `TryLock.WaiterIsWoken` | trylock/trylock.go:61-75 | a waiter can go on, or waits on the channel of the present holder, whose unlock lets it go on |
| `TryLock.FreeLockIsTaken` | trylock/trylock.go:30-75 | an attempt takes the lock if and only if nobody holds it |
| `TryLock.Mutex.constructor` | trylock/trylock.go:12-18 | a new mutex is in the initial state |
| `TryLock.Mutex.TryLockOnce` | trylock/trylock.go:30-38 | the method is the locking step of the model |
| `TryLock.Mutex.Release` | trylock/trylock.go:50-55 | the method is the unlocking step of the model |
| `CacheLock.StepUsersOk` | db/cache/addresscache.go:40-73 | a step keeps every channel made for the address its user names, and the channel of each holder or releaser open and its own |
| `CacheLock.StepHoldersOk` | db/cache/addresscache.go:40-73 | a step keeps the locked addresses those with a holder, whose channel the map gives |
| `CacheLock.StepChansOk` | db/cache/addresscache.go:40-73 | a step keeps every channel closed, or owned by a holder or a releaser who will close it |
| `CacheLock.RunKeepsInv` | db/cache/addresscache.go:40-73 | in every state of every interleaving where only holders release, once each, the invariant holds and no step panics |
| `CacheLock.NoPanic` | db/cache/addresscache.go:46-53 | a releasing holder never closes a closed channel |
| `CacheLock.MutualExclusion` | db/cache/addresscache.go:64-73 | at most one holder for each address |
| `CacheLock.WaiterIsWoken` | db/cache/addresscache.go:64-73 | a waiter can go on, or its channel is that of the holder or of a holder about to close it |
| `CacheLock.FreeAddressIsTaken` | db/cache/addresscache.go:40-73 | an attempt takes the address if and only if nobody holds it, and otherwise waits on the channel of the holder |
| `CacheLock.ClosedGrows` | db/cache/addresscache.go:46-53 | a closed channel stays closed |
| `CacheLock.ClosedOnce` | db/cache/addresscache.go:46-53 | no channel is closed twice |
| `DexBook.TotalTakesOut` | exchanges/exchanges.go:1635-1690 | the volume at a rate does not depend on the order of the orders |
| `DexBook.BookKeepsIff` | exchanges/exchanges.go:1680-1690 | booking keeps the volumes right if and only if the order is new or its old quantity was used up |
| `DexBook.UnbookKeeps` | exchanges/exchanges.go:1692-1716 | unbooking keeps the volumes right, also for an order already reduced to zero |
| `DexBook.UpdateKeepsIff` | exchanges/exchanges.go:1718-1742 | an update of a booked order keeps the volumes right if and only if the remaining quantity does not grow |
| `DexBook.DishonestFails` | exchanges/exchanges.go:1680-1742 | an ID booked twice, or an update that adds one atom, makes any accurate book wrong |
| `DexBook.LoadKeeps` | exchanges/exchanges.go:1635-1656 | loading a snapshot of distinct orders makes the volumes right; a missing order stops the load |
| `DexBook.StepKeeps` | exchanges/exchanges.go:1401-1525 | every accepted note that honours the protocol keeps the volumes right; others are refused or skipped |
| `DexBook.RunKeeps` | exchanges/exchanges.go:1401-1525 | so does every run of notes |
| `DexBook.SnapshotAccurate` | exchanges/exchanges.go:1635-1742 | after a snapshot, whatever came before, every run of notes leaves each rate on each side with the sum of the remaining quantities booked there |
| `DexNotes.InSequenceIff` | exchanges/exchanges.go:1609-1616 | a note is in sequence if and only if its number is the next of a 64-bit counter |
| `DexNotes.SnapshotBooks` | exchanges/exchanges.go:1635-1656 | a snapshot books exactly the orders it lists before the first nil, the last of an ID counting |
| `DexNotes.StepDoes` | exchanges/exchanges.go:1401-1742 | what every note does to orders, levels, number and failures: an accepted book, unbook or update changes that one order and its level; a refused one nothing; a suspension that does not persist empties the book |
| `DexNotes.LastWord` | exchanges/exchanges.go:1680-1742 | over every run the last accepted note that names an order decides what is booked under its ID |
| `DexNotes.TraceEnds` | exchanges/exchanges.go:1401-1742 | any run that follows the notes so ends with the orders of the replica |
| `DexNotes.ProcessAll` | exchanges/exchanges.go:1401-1742 | the methods, over every run of messages, do that, and stay accurate with an honest server |
| `DexBook.SortKeys` | exchanges/exchanges.go:742-750 | the rates are listed in strictly ascending order, each once |
| `DexBook.ListLevels` | exchanges/exchanges.go:742-768 | the points of a side list each rate once with its volume, in order |
| `DexBook.PricesAscendIff` | exchanges/exchanges.go:742-768 | the prices ascend as the signed rate keys do if and only if all rates are on one side of 2^63 |
| `DexBook.DecredDEX.CheckSeqNo` | exchanges/exchanges.go:1609-1616 | accepts only the next sequence number and then moves to it |
| `DexBook.DecredDEX.AddOrder` | exchanges/exchanges.go:1680-1690 | books the order |
| `DexBook.DecredDEX.TakeFrom` | exchanges/exchanges.go:1706-1715 | takes a quantity from a rate and drops the rate at zero |
| `DexBook.DecredDEX.Unbook` | exchanges/exchanges.go:1692-1716 | unbooks the order; fails without change on an empty or unknown ID |
| `DexBook.DecredDEX.Update` | exchanges/exchanges.go:1718-1742 | updates the order with the 64-bit difference; fails without change on an empty or unknown ID |
| `DexBook.DecredDEX.SetOrderBook` | exchanges/exchanges.go:1635-1656 | clears the book and loads the snapshot |
| `DexBook.DecredDEX.Process` | exchanges/exchanges.go:1401-1525 | each message changes the replica as the note model says |
| `DexBook.DecredDEX.DepthSnapshot` | exchanges/exchanges.go:742-772 | each side of the snapshot lists each rate with booked volume once, asks ascending and bids descending by signed rate key, with the sum of the remaining quantities |
| `Heap.UpStep` | api/types/apicache.go:512-516 | one swap of the upward move keeps the rest of the heap in order |
| `Heap.DownStep` | api/types/apicache.go:512-516 | one swap of the downward move keeps the rest of the heap in order |
| `Heap.RootIsLeast` | api/types/apicache.go:500-509 | the root of the heap is its least height |
| `Heap.GreatestUnique` | api/types/apicache.go:645-694 | the greatest n of the heights offered are determined, multiplicities included |
| `Heap.KeepNew` | api/types/apicache.go:684-694 | with room left, adding a height keeps all of the greatest |
| `Heap.KeepOld` | api/types/apicache.go:660-682 | a height that is no more than any kept is rightly refused |
| `Heap.Replace` | api/types/apicache.go:660-679 | replacing the least by a greater height keeps the greatest |
| `BlockQueue.BlockPriorityQueue.constructor` | api/types/apicache.go:485-495 | a new queue is empty, with the initial height bounds |
| `BlockQueue.TagOfIff` | api/types/apicache.go:697-721 | block data has the tag that every part of it agrees on in height and hash, and none otherwise |
| `BlockQueue.CachedBlock.constructor` | api/types/apicache.go:431-452 | a new block has no accesses and no position |
| `BlockQueue.BlockPriorityQueue.Swap` | api/types/apicache.go:512-516 | exchanges two blocks, each then knowing its position |
| `BlockQueue.BlockPriorityQueue.Up` | api/types/apicache.go:645-694 | moving a block up makes a heap of the same heights |
| `BlockQueue.BlockPriorityQueue.Down` | api/types/apicache.go:645-694 | moving a block down makes a heap of the same heights, or leaves one that only moving up must mend |
| `BlockQueue.BlockPriorityQueue.Fix` | api/types/apicache.go:725-747 | after one height changed, the same heights are a heap again |
| `BlockQueue.BlockPriorityQueue.Push` | api/types/apicache.go:576-590 | appends a block that knows its position |
| `BlockQueue.BlockPriorityQueue.HeapPush` | api/types/apicache.go:684-694 | adds one block and keeps the heap and the positions; the bounds take in its height |
| `BlockQueue.BlockPriorityQueue.AddBlock` | api/types/apicache.go:684-694 | so that the bounds stay the extremes of all heights taken |
| `BlockQueue.BlockPriorityQueue.UpdateMinMax` | api/types/apicache.go:841-848 | the bounds take in one height |
| `BlockQueue.BlockPriorityQueue.RescanMinMax` | api/types/apicache.go:833-837 | a rescan takes every height in and never lets the old bounds go |
| `BlockQueue.BlockPriorityQueue.RescanMinMaxForUpdate` | api/types/apicache.go:795-804 | in effect the bounds take in the new height, rescan or not |
| `BlockQueue.BlockPriorityQueue.UpdateBlock` | api/types/apicache.go:725-747 | replaces one height by another and keeps the heap, the positions and the bounds; data whose parts disagree changes nothing |
| `BlockQueue.BlockPriorityQueue.Retag` | api/types/apicache.go:735-744 | the replacement itself |
| `BlockQueue.BlockPriorityQueue.ReplaceTop` | api/types/apicache.go:660-679 | the lowest block of a full queue gives way to a higher one, and the queue still holds the greatest heights offered |
| `BlockQueue.BlockPriorityQueue.InsertFull` | api/types/apicache.go:660-682 | a full queue takes a higher block in place of its lowest and names the one removed |
| `BlockQueue.BlockPriorityQueue.InsertRoom` | api/types/apicache.go:684-694 | a queue with room takes the block |
| `BlockQueue.BlockPriorityQueue.Insert` | api/types/apicache.go:645-694 | after any inserts the queue is a heap of blocks that know their positions and holds exactly the capacity-many greatest heights offered; it says when a block was added and which was removed |
| `BlockQueue.MaxIsKept` | api/types/apicache.go:841-848 | the greatest height ever taken is never evicted, so maxHeight is the greatest in the queue |
| `BlockQueue.MinHeightGoesStale` | api/types/apicache.go:795-848 | minHeight need not be the least height: with room for one, inserting 1 and then 2 leaves it 1 |
| `BlockQueue.MinStaysExactIff` | api/types/apicache.go:795-848 | an eviction leaves minHeight the least height if and only if another block has that height |
| `BlockQueue.BlockPriorityQueue.WithinCapacity` | api/types/apicache.go:645-694 | the queue never holds more than its capacity |
| `ApiCache.EntriesFollow` | api/types/apicache.go:146-158 | adding a block and deleting the one evicted keeps the cache exactly the blocks of the queue |
| `ApiCache.HeightsFollow` | api/types/apicache.go:146-158 | and every known height leading to a cached block of that height |
| `ApiCache.ComesIn` | api/types/apicache.go:146-158 | a block comes in at its hash and height, the evicted one goes with its own, and all else stays |
| `ApiCache.SameSize` | api/types/apicache.go:101-101 | the cache has as many blocks as the queue |
| `ApiCache.APICache.constructor` | api/types/apicache.go:67-78 | an empty cache is valid |
| `ApiCache.APICache.WithinCapacity` | api/types/apicache.go:52-53 | the number of cached blocks stays within the capacity |
| `ApiCache.APICache.CachedAreGreatest` | api/types/apicache.go:116-158 | no block that was offered and is not kept is higher than a cached one |
| `ApiCache.APICache.StoreNew` | api/types/apicache.go:140-158 | a block is cached exactly when the queue has room or a lower block to give up, and then just that block goes |
| `ApiCache.APICache.StoreBlockSummary` | api/types/apicache.go:118-161 | a disabled cache is unchanged, a known block gains only a missing summary, a new one is offered to the queue; which hashes and heights are known afterwards |
| `ApiCache.APICache.StoreStakeInfo` | api/types/apicache.go:177-222 | the same of stake info |
| `ApiCache.APICache.GetCachedBlockByHeight` | api/types/apicache.go:337-346 | a known height never leads to a missing block or to one of another height |
| `ApiCache.StoreAndGet` | api/types/apicache.go:118-346 | a new block that the queue takes is found by its height with what was stored of it |
| `Subsidy.SumPastEnd` | txhelpers/subsidy.go:143-146 | no block after the end adds to the total |
| `Subsidy.TotalAt` | txhelpers/subsidy.go:143-146 | any height from which on nothing is paid gives the same total |
| `Subsidy.FirstInterval` | txhelpers/subsidy.go:102-115 | the two parts of the first interval are the sum of its blocks from height 2 |
| `Subsidy.ChangedInterval` | txhelpers/subsidy.go:117-132 | the two parts of an interval in which the split changes are the sum of its blocks |
| `Subsidy.PlainInterval` | txhelpers/subsidy.go:134-147 | any other interval is the sum of its blocks |
| `Subsidy.TotalSubsidy` | txhelpers/subsidy.go:57-148 | for any activations the loop terminates with the block-one subsidy and the sum of the later blocks before the first interval that pays nothing, each under the variant the code in effect gives it |
| `Subsidy.LoopStops` | txhelpers/subsidy.go:134-147 | there is exactly one such interval, for any activations |
| `Subsidy.NothingAfterStop` | txhelpers/subsidy.go:143-146 | with well placed activations no block after it pays anything under its active variant, although other variants may still pay |
| `Subsidy.SameBeforeStop` | txhelpers/subsidy.go:72-142 | and before it every block pays under the coded variant what it pays under the active one |
| `Subsidy.PlacedMatches` | txhelpers/subsidy.go:72-142 | with well placed activations that variant is the one active at the height of the block |
| `Subsidy.WellPlacedTotal` | txhelpers/subsidy.go:49-154 | then the total is the block-one subsidy and the per-block sum under the active variants |
| `Subsidy.InOrderIsWellPlaced` | txhelpers/subsidy.go:44-49 | activations that are unset, or ordered, in distinct intervals and after the first, are well placed |
| `Subsidy.EarlyFails` | txhelpers/subsidy.go:102-115 | an activation in the first interval gives a wrong total on some schedule |
| `Subsidy.UnpreparedFails` | txhelpers/subsidy.go:72-87 | so does the second change inside an interval that the first does not start, as when both fall in one interval |
| `Subsidy.ReversedFails` | txhelpers/subsidy.go:72-87 | so does the first change in an interval after the second |
| `Subsidy.RightIffWellPlaced` | txhelpers/subsidy.go:49-154 | the total is the per-block sum on every schedule, those of the Decred networks among them, if and only if the activations are well placed |
| `Subsidy.SubsidySums.constructor` | txhelpers/subsidy.go:41-42 | an empty memo is right |
| `Subsidy.SubsidySums.UltimateSubsidy` | txhelpers/subsidy.go:49-154 | a remembered total is what the loop would compute; the memo gains at most this entry |
| `DecredSchedule.PaysNothingIff` | txhelpers/subsidy.go:49-154 | a full subsidy pays nothing if and only if it is at most 1 under the original split, 6 under DCP0010 and 5 under DCP0012 |
| `DecredSchedule.VariantsEndApart` | txhelpers/subsidy.go:143-146 | a subsidy of 6 pays nothing under DCP0010 and something under DCP0012, so the variants end at different heights |
| `DecredSchedule.DecredIsValid` | txhelpers/subsidy.go:49-154 | the schedule with the splits 6/3/1, 10/80/10 and 1/89/10 and a reduction by 100/101 each interval is one of those the theorems are about, for any first subsidy and interval |
| `DecredSchedule.MainNetIsValid` | txhelpers/subsidy.go:49-154 | so is that of the main network |
| `DecredSchedule.MainNetPays` | txhelpers/subsidy.go:49-154 | what a block of the main network pays in the first two intervals, in atoms, under each split |
| `DayBins.Midnight` | db/cache/charts.go:455-460 | the start of the day of a time |
| `DayBins.ScanContiguous` | db/cache/charts.go:524-540 | for any block times the intervals are contiguous, within the blocks, and on consecutive days |
| `DayBins.ScanIs` | db/cache/charts.go:524-540 | for any block times each interval ends with the next block a day or more after its start, and the loop ends past the last midnight or when no block ends another |
| `DayBins.NewBinsContiguous` | db/cache/charts.go:498-540 | so are the intervals that a call of Lengthen adds |
| `DayBins.ScanRising` | db/cache/charts.go:524-540 | on times that rise and skip no day the loop finds each day that is over, with all its blocks, but begins the first where it was told |
| `DayBins.OffsetIsFirstIff` | db/cache/charts.go:511-518 | the scan begins with the first block of the day if and only if that block is not exactly at midnight |
| `DayBins.NewBinsRising` | db/cache/charts.go:498-540 | with the first k days present a call adds all days that are over, or none if that is at most one; the first it adds lacks the blocks exactly at its midnight |
| `DayBins.LateIsWhole` | db/cache/charts.go:511-518 | which is the whole day if and only if it has none |
| `DayBins.NewBinsRegular` | db/cache/charts.go:498-540 | on regular times with the first k days present a call adds all days that are over, whole, or none if that is at most one |
| `DayBins.DaysFromSame` | db/cache/charts.go:498-540 | the days that are over do not change as the chain grows |
| `DayBins.TwinCount` | db/cache/charts.go:498-540 | a chain with one block more on a day that is over has one block more in the bin of that day |
| `Charts.Sum` | db/cache/charts.go:241-249 | the loop gives the 64-bit sum of a segment |
| `Charts.Avg` | db/cache/charts.go:229-238 | the greatest number that, taken once for each block, does not exceed the 64-bit sum |
| `Charts.TotalSplit` | db/cache/charts.go:241-249 | the total of a series is that of its parts |
| `Charts.TotalOne` | db/cache/charts.go:241-249 | and of one value that value |
| `Charts.ConstantAvg` | db/cache/charts.go:229-238 | blocks of one value average to it unless their sum wraps |
| `Charts.SnipIsLongest` | db/cache/charts.go:277-292 | Snip gives the longest beginning of every series with at most the length given, whatever their lengths were |
| `Charts.SnipWindowsIsLongest` | db/cache/charts.go:584-602 | the same of the window series |
| `Charts.Conserved` | db/cache/charts.go:542-555 | the day sums add up, in 64 bits, to the sum of the blocks that contiguous intervals cover |
| `Charts.ValidateLengths` | db/cache/charts.go:430-452 | returns the least length and whether the lengths differ |
| `Charts.FindOffset` | db/cache/charts.go:511-518 | the first block after the start, or 0 |
| `Charts.FindBins` | db/cache/charts.go:524-540 | the loop produces the intervals of the scan |
| `Charts.ChartData.AddDay` | db/cache/charts.go:542-555 | appends one value to each day series, of the kind each series takes |
| `Charts.ChartData.AddDays` | db/cache/charts.go:542-555 | appends the values of all new days |
| `Charts.BinnedDays` | db/cache/charts.go:542-555 | each day added has, series by series, the start, the last height, the sums or averages over its own blocks, and the work of the first block after it |
| `Charts.ChartData.BinDays` | db/cache/charts.go:496-556 | the day series gain exactly the new bins, in order |
| `Charts.ChartData.Lengthen` | db/cache/charts.go:464-579 | block and window series are cut to their shortest; days gain the new bins, each day series the values of its own block series; the outcome, the error cases and the cache IDs are as stated |
| `Charts.ChartData.ReorgHandler` | db/cache/charts.go:584-602 | blocks are cut to the ancestor, days by two and windows by one |
| `ChartRuns.DaysStayEven` | db/cache/charts.go:558-566 | day series of equal length stay equal through Lengthen and ReorgHandler, so the mismatch error is out of reach |
| `ChartRuns.NewDaysConserve` | db/cache/charts.go:520-556 | for any block times the new days of a summed series account for the blocks they cover |
| `ChartRuns.LengthenFollows` | db/cache/charts.go:464-579 | if the days are the first days of the chain, they are so after Lengthen, and lack at most one |
| `ChartRuns.SingleCallIs` | db/cache/charts.go:464-579 | a single call from no days gives all days that are over if there are two, else none |
| `ChartRuns.LagsByOne` | db/cache/charts.go:464-579 | the days are the beginning of what a single call gives and lag it by at most one |
| `ChartRuns.GrowthFollows` | db/cache/charts.go:464-579 | days that follow a chain follow any longer one |
| `ChartRuns.ReorgFollowsIff` | db/cache/charts.go:584-602 | after ReorgHandler the days follow the shorter chain if and only if at most two days are undone |
| `ChartRuns.ReorgRightIff` | db/cache/charts.go:584-602 | the days kept are the first days of every chain that grows from the blocks kept if and only if at most two days are undone |
| `ChartRuns.ThreeDaysUndone` | db/cache/charts.go:584-602 | with four blocks on four days and three days binned, cutting back to the first block keeps a day that is wrong for a chain that may follow |
| `ChartRuns.Handle` | db/cache/charts.go:464-602 | new blocks with Lengthen, or a reorganisation that undoes at most two of the days held, keep the days the first days of the chain |
| `ChartRuns.StartFollows` | db/cache/charts.go:464-509 | a chain with no days yet is where every run may begin |
| `ChartRuns.Run` | db/cache/charts.go:464-602 | so does every legal run; after new blocks at most one day is missing |
| `ChartRuns.AppendOnly` | db/cache/charts.go:464-579 | however blocks arrive, the days are the beginning of what a single call over all blocks gives and lag it by at most one |
| `MidnightRuns.CallAdds` | db/cache/charts.go:498-540 | with blocks at midnight allowed, each call that adds days makes its first day lack them, and no other |
| `MidnightRuns.CallOnce` | db/cache/charts.go:464-579 | a batch of blocks and a call of Lengthen do so to the day series |
| `MidnightRuns.Calls` | db/cache/charts.go:464-579 | so does every run of batches and calls |
| `MidnightRuns.SingleIs` | db/cache/charts.go:464-579 | a single call does it to the first day of the chain only |
| `MidnightRuns.AgreeIff` | db/cache/charts.go:464-579 | the days of a run of calls are the first of those of a single call, whatever the blocks hold, if and only if no day that a later call began with has a block exactly at its midnight |
| `MidnightRuns.MidnightSplits` | db/cache/charts.go:511-518 | five blocks on five days, the third at midnight, with a call after three of them and one at the end, do not agree |
| `AddressRows.Txs` | db/dbtypes/types.go:1608-1657 | transactions in order of first appearance, each once |
| `AddressRows.Merge` | db/dbtypes/types.go:1608-1657 | one merged row for each transaction, in that order, made of its first row and the sums over all its rows |
| `AddressRows.MergeNew` | db/dbtypes/types.go:1622-1643 | a row of a new transaction begins a merged row at the end |
| `AddressRows.MergeOld` | db/dbtypes/types.go:1645-1651 | a row of a known transaction changes its merged row and no other |
| `AddressRows.MergeConserves` | db/dbtypes/types.go:1608-1657 | merging keeps the sum of the credits, the sum of the debits and the number of rows |
| `AddressRows.MergedIs` | db/dbtypes/types.go:1622-1651 | a merged row has the address, time, type and validity of the first row of its transaction and counts all its rows |
| `AddressRows.MergeOneRow` | db/dbtypes/types.go:1622-1643 | a row alone is merged into one of its own value and direction |
| `AddressRows.MergeOneWay` | db/dbtypes/types.go:1608-1657 | rows of one direction merge into rows of that direction only |
| `RowMerging.CompactRows` | db/dbtypes/types.go:1915-1931 | keeps every row, in order, without the merged fields and the database ID |
| `RowMerging.FilterIs` | db/dbtypes/types.go:1522-1561 | the merged credit view keeps the credits, the debit view the debits, in order, the third all rows |
| `RowMerging.MergeRows` | db/dbtypes/types.go:1608-1657 | fails exactly when a merged row is present; otherwise gives the merge |
| `RowMerging.MergeRowsCompact` | db/dbtypes/types.go:1769-1812 | the merge of compact rows is that of the rows |
| `RowMerging.CountMergedRows` | db/dbtypes/types.go:1522-1561 | the number of distinct transactions among the rows of the view; fails for other views and for merged rows of either direction |
| `RowMerging.CountMergedRowsCompact` | db/dbtypes/types.go:1565-1599 | the number of distinct transactions among the rows of the view; fails for other views |
| `RowMerging.SkipCount` | db/dbtypes/types.go:1719-1729 | the skip ends with the row that brings the transactions seen to the offset, or with the rows |
| `RowMerging.RangeOne` | db/dbtypes/types.go:1700-1758 | one turn of the range loop keeps its state that of the rows so far |
| `RowMerging.MergeRowsRange` | db/dbtypes/types.go:1669-1761 | the first N merged rows of what follows the skip, only credits in the credit view and debits in the debit view; fails exactly for an invalid request or a merged row that the view shows |
| `RowMerging.BadDirectedIff` | db/dbtypes/types.go:1679-1699 | which merged rows make a range fail: those that the view shows |
| `RowMerging.MergeRowsCompactRange` | db/dbtypes/types.go:1825-1912 | the same of compact rows; an invalid request gives none |
| `RowMerging.GivenOut` | db/dbtypes/types.go:1961-1982 | a merged row given out has the fields of the first row of its transaction, its count of rows, and the net value with its direction |
| `RowRanges.TxsConcat` | db/dbtypes/types.go:1669-1761 | the transactions of two lists are those of the first, then the new ones of the second |
| `RowRanges.LaterTx` | db/dbtypes/types.go:1669-1761 | a transaction that begins in the second list is merged from it alone |
| `RowRanges.RangeIsPageIff` | db/dbtypes/types.go:1669-1761 | the range is the page of the full merge if and only if none of its first N transactions was skipped |
| `RowRanges.StragglerIsSplit` | db/dbtypes/types.go:1669-1761 | rows of transactions A, B and A with offset 1 and N = 2: the range has two rows, the page one |
| `RowRanges.RangeIsPage` | db/dbtypes/types.go:1669-1761 | so it is when no row of a skipped transaction follows the skip |
| `RowRanges.NothingSkipped` | db/dbtypes/types.go:1669-1761 | with offset 0 nothing is skipped |
| `RowRanges.ReduceAddressHistory` | db/dbtypes/types.go:2321-2386 | received and sent are the flows of the valid rows, unspent their difference, and the counts the numbers of valid rows of each direction; nothing for no rows |
| `RowRanges.FlowConcat` | db/dbtypes/types.go:2321-2386 | the flows of a history are those of its parts |
| `RowRanges.FlowOne` | db/dbtypes/types.go:2321-2386 | a valid credit is received, a valid debit sent, an invalid row neither |
| `RowRanges.UnspentMerged` | db/dbtypes/types.go:1961-1982 | the balance of merged rows, uncompacted, is the sum of credit less debit over the valid ones |
| `RowRanges.MergedNet` | db/dbtypes/types.go:1608-1657 | for any rows, the balance after merging counts each row by the validity of the first row of its transaction |
| `RowRanges.MergingKeepsUnspentIff` | db/dbtypes/types.go:2321-2386 | merging keeps AmountUnspent if and only if the rows whose validity is not that of the first row of their transaction cancel out |
| `RowRanges.MergingKeepsUnspent` | db/dbtypes/types.go:2321-2386 | so it does when the rows of each transaction share their validity |
| `RowRanges.MixedValidityDiffers` | db/dbtypes/types.go:2321-2386 | with a valid and an invalid row of one transaction it does not, either way round |
| `RowPages.PageRows` | db/dbtypes/types.go:1362-1379 | the page of rows; addressRows is the same loop on compact rows |
| `RowPages.PageIs` | db/dbtypes/types.go:1362-1379 | the page is the entries from the offset on, as many as asked for or as there are |
| `RowPages.CountDirected` | db/dbtypes/types.go:1383-1392 | the number of rows of a direction; CountCreditDebitRowsCompact is the same loop on compact rows |
| `RowPages.DirectedPage` | db/dbtypes/types.go:1407-1441 | the page of the rows of one direction; with N = 0, all after the offset; the debit form and the two of compact rows are the same loop |
| `RowPages.CollectRows` | db/dbtypes/types.go:1424-1440 | the loop that skips, appends and stops at the limit gives that page of the rows chosen |
| `RowPages.SliceUnspent` | db/dbtypes/types.go:1445-1479 | counts the unspent credits but takes its rows from all credits; with N = 0, all after the offset |
| `RowPages.SliceAddressRows` | db/dbtypes/types.go:1328-1358 | the page of each view, the unspent one as the code has it; fails exactly for a negative argument or, when rows are asked for and present, for an unknown view or a merged row in a merged view |
| `RowPages.CompactDirected` | db/cache/addresscache.go:153-187 | compacting and choosing rows commute, for any choice that compacting does not change |
| `RowPages.PageCompacts` | db/cache/addresscache.go:118-135 | a page of compact rows is the page of the rows but for the dropped fields |
| `RowPages.CompactKeeps` | db/dbtypes/types.go:1915-1958 | compacting a row and back keeps all but the database ID and what merging adds |
| `RowPages.DirectViews` | db/dbtypes/types.go:1328-1358 | the credit view is a page of the credits, the debit view of the debits, the whole view of all rows |
| `RowPages.CompactViews` | db/cache/addresscache.go:509-564 | so are those from compact rows; the unspent view is a page of the credits not spent |
| `RowPages.CompactPageAgrees` | db/cache/addresscache.go:509-564 | in the six views but the unspent one, for every N and offset, the page from compact rows is the direct page, but for the dropped fields |
| `RowPages.PagesMakeUp` | db/cache/addresscache.go:118-303 | consecutive pages with N > 0 make up the filtered list |
| `UnspentView.CompactUnspent` | db/cache/addresscache.go:305-341 | the unspent page of compact rows lists the unspent credits |
| `UnspentView.UnspentAgreesIff` | db/dbtypes/types.go:1445-1479 | the two unspent pages agree for every N and offset if and only if all credits are unspent, or at most one row is unspent and it is the first credit |
| `UnspentView.SpentCreditListed` | db/dbtypes/types.go:1445-1479 | with a spent credit before an unspent one, the first page from rows is the spent one |
| `PurgeSizes.HasPurgeable` | db/cache/addresscache.go:1018-1039 | unless it is stuck, the second loop has an address to remove or ends |
| `PurgeSizes.StuckRuns` | db/cache/addresscache.go:1018-1039 | a stuck loop runs for any number of turns |
| `PurgeSizes.RunsAreShort` | db/cache/addresscache.go:1018-1039 | otherwise it takes at most as many turns as there are addresses |
| `PurgeSizes.NeverEndsIff` | db/cache/addresscache.go:1018-1039 | the loop never ends if and only if the project address alone does not fit and an address without rows is cached beside it |
| `PurgeSizes.ProjectFits` | db/cache/addresscache.go:1018-1039 | so it ends when the project address is not cached or its rows and the new ones fit |
| `PurgeOutcomes.FirstKeeps` | db/cache/addresscache.go:1000-1016 | every way the first loop may go leaves a part of the cache with the project address, and all of it if there was room for an address |
| `PurgeOutcomes.SecondKeeps` | db/cache/addresscache.go:1018-1039 | every way the second loop may go keeps the project address and addresses without rows |
| `PurgeOutcomes.OutcomeKeeps` | db/cache/addresscache.go:995-1042 | every way the purge may go leaves a part of the cache, all of it if there was room |
| `PurgeOutcomes.MayHangIff` | db/cache/addresscache.go:995-1042 | in a cache within bounds the purge may never return if and only if its second loop would be stuck, and the first loop removes nothing or can leave it so |
| `PurgeOutcomes.SettlesBounds` | db/cache/addresscache.go:1044-1102 | however a store ends, the addresses stay in bounds and the rows exceed the capacity by at most those replaced |
| `PurgeOutcomes.SettlesFits` | db/cache/addresscache.go:1044-1102 | with room for the rows and an address, a store succeeds and removes nothing |
| `PurgeOutcomes.SucceedsIff` | db/cache/addresscache.go:1083-1102 | an update in place can succeed if and only if its rows fit beside those of the project address and the project address alone does not fill the cache |
| `PurgeOutcomes.UpdateKeptIff` | db/cache/addresscache.go:1083-1102 | one that can succeed leaves the address cached, whatever is purged, if and only if it is the project address, or there is room for an address more and for the rows, or none of its own to lose |
| `CachedAddresses.AddressCacheItem.constructor` | db/cache/addresscache.go:1073-1079 | an item for a block |
| `CachedAddresses.AddressCacheItem.Transactions` | db/cache/addresscache.go:509-564 | the page of the view with the block of the item, or a miss; fails exactly for negative arguments and an unknown view |
| `CachedAddresses.AddressCache.constructor` | db/cache/addresscache.go:714-729 | an empty cache is valid |
| `CachedAddresses.AddressCache.Length` | db/cache/addresscache.go:972-979 | the number of addresses and the total of their rows |
| `CachedAddresses.AddressCache.PurgeAddrs` | db/cache/addresscache.go:1000-1016 | the loop is one of the ways its relation allows |
| `CachedAddresses.AddressCache.PurgeRows` | db/cache/addresscache.go:1018-1039 | unless it starts stuck, the loop ends, in one of the ways its relation allows |
| `CachedAddresses.AddressCache.PurgeRowsToFit` | db/cache/addresscache.go:995-1042 | unless it may hang, it ends in one of the ways the relation allows, and reports space exactly when the rows and one address more fit |
| `CachedAddresses.AddressCache.AddCacheItem` | db/cache/addresscache.go:1044-1065 | a store as a new item, in one of the ways the relation allows: added or replaced if there is space |
| `CachedAddresses.AddressCache.UpdateRows` | db/cache/addresscache.go:1083-1102 | a store in place, in one of the ways the relation allows: the rows of an item that the purge removed are lost |
| `CachedAddresses.AddressCache.SetCacheItemRows` | db/cache/addresscache.go:1067-1102 | the three cases of setting rows: a new item, rows already there, an update; only the first and the last may purge |
| `CachedAddresses.AddressCache.StoreRowsCompact` | db/cache/addresscache.go:1171-1186 | what is cached for the address afterwards was stored for it at that block; storing an uncached address keeps the total in the capacity |
| `CachedAddresses.AddressCache.StoreRows` | db/cache/addresscache.go:1106-1118 | the same of rows that are compacted first |
| `CachedAddresses.AddressCache.StoreBalance` | db/cache/addresscache.go:1189-1219 | the balance given, or an empty one if none is, is cached for the address at the block, and no other item changes; only a new item may purge |
| `CachedAddresses.AddressCache.StoreUTXOs` | db/cache/addresscache.go:1223-1255 | refuses too many; keeps the block, rows and balance of a cached item; only a new item may purge |
| `CachedAddresses.AddressCache.ClearRows` | db/cache/addresscache.go:1273-1285 | the address has no rows afterwards |
| `CachedAddresses.AddressCache.GetBalance` | db/cache/addresscache.go:825-839 | the balance of the item, with its hash and height; it was stored for that address at that hash |
| `CachedAddresses.AddressCache.Transactions` | db/cache/addresscache.go:903-922 | rows returned with a block are a page of rows stored for that address at that block |
| `AddressCacheRuns.StoreAndRead` | db/cache/addresscache.go:903-1118 | a hit after storing rows gives the same page as slicing them; storing an uncached address makes a hit |
| `AddressCacheRuns.StoreAndReadBalance` | db/cache/addresscache.go:825-1219 | after a successful store, reading gives the balance that was given, at the block |
| `AddressCacheRuns.LostUpdate` | db/cache/addresscache.go:1083-1102 | a run from an empty cache with room for one address: a balance is stored, then rows for the same block; both succeed and the address is gone |
| `AddressCacheRuns.HangReached` | db/cache/addresscache.go:1018-1039 | a run from an empty cache: with the rows of the project address filling it and a balance beside them, storing one row of a third address may never return |
| `AddressCacheRuns.Do` | db/cache/addresscache.go:1106-1285 | an operation whose rows fit beside those of the project address ends and keeps the cache valid |
| `AddressCacheRuns.Run` | db/cache/addresscache.go:1106-1285 | over every run of such operations the addresses stay in bounds and what is cached is what was stored |

## Left out

- Failures of the node: a block or header that cannot be fetched by height while connecting or trimming; `CommonAncestor` and `SideChainFull` do model one that cannot be fetched by hash.
- Failures of the stake node's own database, and saving its state to it.
- Version 0 of the ticket pool database (gob records), its upgrade, and the list of heights that loading returns beside the diffs.
- DiffCodec.DecodeDiff: does not model the allocation of a slice for a declared length that no memory could hold.
- `OrphanedTipLength`, `Rewind` and the rewinding part of `LoadAndRecover`: they would add only loops over modelled steps.
- DiffStore.LoadAllPoolDiffs: requires diff records with eight-byte keys, the only ones the program writes; of a longer key the code reads the first eight bytes, and a shorter one makes it panic.
- StakeDatabase.StakeDatabase.ConnectBlock: requires that a block the stake node accepts makes a good chain, so its height is one above the tip; the code tests only that it is above.
- StakeDatabase.StakeDatabase.constructor: a new database only; `NewStakeDatabase` opens one on existing data.
- StakeRecovery.NewStakeDatabase: requires the stake node's chain to be a good one, and its list of live tickets to be right.
- `PoolInfo` and its cache: statistics of a pool that is modelled.
- Removal from `APICache` and `Reheap`; its hit counters. What is cached of a block is known by height and hash only.
- BlockQueue.BlockPriorityQueue.Insert: does not model the other comparators; the default one, by binned access time, is not an order.
- BlockQueue.BlockPriorityQueue.UpdateBlock: requires a block in the queue, as its comment does, and data with a part; with neither part the code dereferences nil.
- DexBook.DecredDEX.Process: does not model candlesticks, the configuration messages or the exchange update that follows a snapshot; volumes are integer atoms, so the threshold of 1e-8 means zero.
- Charts.ChartData.Lengthen: does not model time stamps within two days of 2^64 seconds, where the day arithmetic would wrap, nor the locking of the chart cache.
- The charts drawn from the series, their encoding and the cache of encoded charts.
- ChartRuns.AppendOnly: starts from a chain with a block; before that Lengthen only returns.
- RowMerging.MergeRows: does not model overflow of 64-bit sums of atoms or of the 32-bit row count.
- RowMerging: the pointer that the code shares between its map and its list of merged rows is an index here, so two names for one row do not arise.
- RowRanges.ReduceAddressHistory: does not model the list of transactions in coins, nor the stake fractions, which are floating point.
- CachedAddresses.AddressCacheItem.Transactions: does not model an item that is nil; the setters of an item that the cache does not call are left out, so its block is constant.
- CachedAddresses.AddressCache.PurgeRowsToFit: requires a state from which it cannot hang, since the program need not return otherwise, as do the stores when they purge; the order of iteration over the map is arbitrary.
- CachedAddresses.AddressCache.Length: without the number of unspent outputs.
- DexBook.DecredDEX.DepthSnapshot: the order is that of signed rate keys; `PricesAscendIff` says when it is that of the prices.
- CachedAddresses.AddressCache.StoreUTXOs: unspent outputs are opaque; history charts, which are stored the same way, clearing by address, and the hit counters are left out.
- Subsidy.TotalSubsidy: does not model overflow of 64-bit totals; the subsidy of a block is a function of its height and variant, constant on each interval; once it is zero under a variant it is zero under that one for good, and under later ones from the next interval on.
- Locks outside `TryLock` and `CacheLock`: each locked method is one step.
- PostgreSQL, RPC, HTTP, websockets, templates, configuration, the mempool and the proposal and agenda pages.
