# Verified model of zkCoin's core

zkCoin is a node of a Bitcoin-derived chain, written in C++. This project models the parts of it
that carry the hardest state, and proves what they promise. The model follows the code: the same
branches, constants and error exits. Objects that the code updates in place are classes whose
methods state their whole new state; loops stay loops; expressions and recursion stay functions.

What is proved, module by module:

* **Coins**: any number of coin caches stacked on a database behave as one plain map, over every
  sequence of additions, spends, reads, evictions and flushes. The DIRTY and FRESH flags mean what
  they should in every reachable state, so the exception about a misapplied flag is unreachable, and a
  coin whose script can never be satisfied, by its bytes, is never seen at any level. The last cache goes to the database in batches, with the marks that tell a crash from a finished write.
* **Connect**, **Reconnect**, **Replay**: disconnecting a block undoes connecting it; undoing a
  transaction is clean if and only if doing it again gives the same coins; and after a crash anywhere in a
  flush, and any number of restarts that crash or cannot read a block, the replay of blocks at
  start-up brings the coin database to exactly the coins of the new tip.
* **AddrMan**: the six redundant structures of the address manager stay consistent through every
  run, so no internal assertion fires, the "no bucket" exit is never taken and no empty tried slot
  is read. Every operation states its exact effect, up to the order of `vRandom`; who is evicted
  from the tried table, who is forgotten and who waits is told by times of success and attempts alone.
* **AddrManFile**: writing the address manager and reading it back re-establishes the invariant.
  Under the same AS map nothing is lost; under another one an address survives if and only if no
  older address of its table is due the same slot.
* **CheckQueue**: in every interleaving of a master and any number of workers the answer of `Wait`
  is exact; the master never sleeps without someone to wake it, and however the threads are
  scheduled, `Wait` returns after boundedly many working steps.
* **Packages**: the totals of a transaction with its ancestors, and exactly what is taken off them as
  ancestors enter the block.
* **Miner**: package selection terminates with a block in a valid order, exact running totals and
  all limits kept, also when a package breaks off midway. Over the whole run the totals it reads are
  known exactly; whatever is left out was turned down for a reason, or is no better than a
  transaction that pays too little; whatever is in the block is final, carries nothing the block may
  not carry and came with a package that pays enough; and with ample room nothing is left out.
* **LowFees**: for exactly which shapes of the pool an end for a low fee means that all that is left
  pays too little.
* **AncestorScore**: the comparison of packages goes by the lower of two rates; when it is a strict
  order, and that it is not otherwise.
* **MerkleBlock**: authentication and completeness of partial Merkle trees; what is accepted has not
  one bit or hash too many.
* **MerkleRoot**: the root of a block binds its transactions if no mutation is reported, and is the
  root the partial trees are checked against.
* **MerkleSize**: their exact number of flag bits, and exactly when the documented bounds on flag bits
  and on the serialized size hold.
* **CuckooCache**: conservation of contents, reachability of what must be kept, and the bound on
  live entries over every run, with the flags packed into bytes.
* **ArithUint256**, **Compact**: limb arithmetic equals arithmetic modulo 2^256, the compact form
  is exact, and block work is exactly floor(2^256 / (target + 1)).
* **AuxPow**, **AuxPowBuild**, **MerkleBranch**: a coinbase script with the merged-mining header
  commits to one child block per chain; which chains share a slot and which nonces lead to one; and
  for exactly which scripts proofs built honestly, and the minimal proof, are accepted.
* **Chain**: ancestors through the skip list in polylogarithmically many links, the active chain,
  forks and locators.
* **Bloom**: what every cell of the rolling filter holds after any run, and so exactly which keys it
  reports: retention, and that older keys leave no trace.
* **BlockEncodings**: a block sent as a compact block (BIP 152, section "Specification") is rebuilt,
  and short ids that collide fill exactly the slots the rule about them allows.
* **Base58**, **Digits**, **Bech32**: both directions of both notations and sufficiency of the buffer
  sizes (BIP 173, section "Bech32"; BIP 350, section "Bech32m").
* **Bech32Field**, **Bech32Pairs**, **Bech32Code**, **Bech32Shortest**: the Bech32 checksum is the
  remainder of a polynomial over the field with 32 elements, and any three changed characters within
  a window of 1023 are detected: the generator has three roots in the field with 1024 elements, in the
  ratio of an element of order 1023. The shortest valid strings are computed.
* **Fields**: what that needs of any field in which every element is its own negative.
* **NonLinear**, **Powers**, **BitOps**, **Sequences**, **Sets**: small facts shared by the others.

Hash functions are arbitrary functions, and nothing is assumed about them: where a result needs
the pair hash to be free of collisions, it says instead that it holds or that two different pairs,
among those hashed on the way, have one hash. Readings of the clock and random numbers are
arguments. Where results of the code are left open (what the MWEB miner answers, when a database
batch is full, how a hash table fills its buckets), the proofs hold for every answer.

## Where code and comments differ

The model follows the code.

* `src/coins.h:122-137` lists five valid flag states. The state "spent, FRESH, not DIRTY" is never
  reached, because `GetCoin` reports only unspent coins; `Coins.EntryOk` admits the other four.
* `SpendCoin` returns true for a coin that was already spent in the same cache and not flushed.
* `AddCoin` has already subtracted the old coin from the usage when it throws; `AddToCache` says
  exactly when the books are still right.
* `Add_` returns true for an unknown address even when no bucket had room and the entry is dropped.
* The comment at `src/cuckoocache.h:419-420` says that the first displacement uses the first
  location; the expression gives the second.
* `ExtractMatches` clears its list of ids but not its list of indices.
* The bound of 2*N-1 flag bits in `src/merkleblock.h:51` and the guaranteed size in
  `src/merkleblock.h:38` do not hold for every mask: `MerkleSize.FlagBitBoundFails` and
  `MerkleSize.SizeBoundFails` give inputs, `MerkleSize.FlagBitBound` and `MerkleSize.SizeBound` say
  exactly when they hold.
* Entries of the miner's side table lose base fees where they should lose modified fees:
  `Packages.FeesWrong` gives inputs, `Packages.FeesRight` says exactly when the result is right all
  the same.
* The remark at `src/miner.cpp:464`, that everything else has a lower fee rate when one package pays
  too little, does not hold: `LowFees.DiamondPays` gives a pool, `LowFees.LowExactly` the shapes for
  which it does.
* An entry erased from the side table can come back with ancestors counted that are in the block
  (`Packages.ComesBackStale`). It is refused (`Miner.FailedIsRefused`), but its fee may be the one that
  ends the selection.
* The comparison of packages is not an order when a transaction has neither size nor fee, which
  an MWEB-only transaction can have; `AncestorScore.NoRateNoOrder` shows the circle.
* When `operator/=` throws for a zero divisor, the number has already been set to zero.

## Model

| member | source | states |
|---|---|---|
| `Coins.UsageUpdate` | src/coins.cpp:75-107 | replacing one entry changes the sum over all entries by the difference of the two coins, which is what every usage update in the file relies on |
| `Coins.CachingKeepsView` | src/coins.cpp:49-64 | pulling an unspent coin of the base into a cache without flags leaves the visible coins, the flag meanings and the usage sum intact |
| `Coins.DirtyIsEnough` | src/coins.h:144-151 | when the flags mean what they should, writing only the DIRTY entries writes everything there is to see |
| `Coins.WriteToDb` | src/txdb.cpp:131-195 | the database ends up with exactly its old coins overwritten by the DIRTY entries and the new best block; however the entries are cut into batches, what a crash leaves is the old database, or one that names both tips and has every coin as it was or as it will be, or the finished one |
| `Coins.MergeShowsUpper` | src/coins.cpp:208-259 | merging an upper cache into the one below keeps every flag meaning there and makes it show exactly what the upper cache showed |
| `Coins.BatchWrite` | src/coins.cpp:208-259 | throws if and only if some DIRTY and FRESH entry meets an unspent coin; otherwise each entry is merged by its case, and the usage is exact in either event |
| `Coins.AddToCache` | src/coins.cpp:75-107 | nothing happens for a script that begins with OP_RETURN or is longer than 10000 bytes; else when it throws, what it leaves visible, and exactly when flags and usage are still right afterwards |
| `Coins.AddedEntry` | src/coins.cpp:104-106 | storing an unspent entry makes just that coin visible, and keeps the flag meanings if and only if the flags of the new entry are justified |
| `Coins.SpentView` | src/coins.cpp:123-137 | dropping a FRESH entry, or clearing one that is not, hides exactly that coin |
| `Coins.SpentEntry` | src/coins.cpp:123-137 | the same with flag meanings and usage preserved |
| `Coins.NeverMisapplied` | src/coins.cpp:234-240 | from justified flags no entry can trigger the exception about a misapplied FRESH flag |
| `Coins.FlushKeepsStack` | src/coins.cpp:270-275 | flushing any level of a valid stack leaves a valid stack in which the level below shows what this level showed |
| `Coins.CoinsViewStack.constructor` | src/coins.cpp:43 | a database of unspent coins and no cache is a valid stack |
| `Coins.CoinsViewStack.Push` | src/coins.cpp:43 | a new empty cache shows what its base shows |
| `Coins.CoinsViewStack.Pop` | src/coins.cpp:43 | destroying the top cache restores the view below |
| `Coins.CoinsViewStack.FetchCoin` | src/coins.cpp:49-64 | changes no view at any level, and finds an entry if and only if the cache had one or an unspent coin is visible |
| `Coins.CoinsViewStack.GetCoin` | src/coins.cpp:66-73 | returns true exactly for the visible unspent coins, with the right coin, through any number of caches |
| `Coins.CoinsViewStack.AddCoin` | src/coins.cpp:75-107 | shows the coin on top, unless its script begins with OP_RETURN or is longer than 10000 bytes; with the documented promise it never throws and keeps the stack valid, and breaking the promise always damages the books except in one named case |
| `Coins.CoinsViewStack.SpendCoin` | src/coins.cpp:123-137 | hides exactly that coin, hands it out, and reports success also for a coin already spent in this cache and not yet flushed |
| `Coins.CoinsViewStack.Uncache` | src/coins.cpp:277-286 | removes the entry if and only if it has no flag, and changes no view |
| `Coins.CoinsViewStack.Flush` | src/coins.cpp:270-275 | never throws on a valid stack, empties the cache and passes its view down; into the database it goes batch by batch as in WriteToDb |
| `Coins.Step` | src/coins.cpp:49-137 | each operation acts on the whole stack as its counterpart acts on one plain map per level |
| `Coins.Run` | src/coins.cpp:49-137 | every legal sequence of operations on any number of caches keeps all flag meanings, never throws and shows what the plain maps show; a database without coins that cannot be spent never shows one at any level |
| `Coins.StaysRunnable` | src/coins.cpp:77 | a coin whose script begins with OP_RETURN or is longer than 10000 bytes never becomes visible in any level |
| `Coins.TopIsOneMap` | src/coins.cpp:49-137 | without discarding a cache, the top view is one plain map to which only the adds and spends were applied |
| `Coins.RunAndFlush` | src/coins.cpp:208-275 | running any operations and flushing from the top down leaves the database equal to that one map |
| `Connect.AddCoins` | src/coins.cpp:109-121 | with or without the look for an overwritten coin, an output is visible as a coin of this transaction if and only if its script neither begins with OP_RETURN nor is longer than 10000 bytes, with its height, its coinbase mark and, for later outputs of a HogEx transaction, its pegout mark; no promise of AddCoin is broken |
| `Connect.StoredByScript` | src/script/script.h:559-562 | the outputs of a transaction that are stored, told by the bytes of their scripts |
| `Connect.SpendInputs` | src/validation.cpp:1698-1702 | hides the coins of all inputs and hands out each coin that was there |
| `Connect.UpdateCoins` | src/validation.cpp:1693-1705 | spends the inputs, adds the outputs and returns the coins spent, in order; a coinbase may overwrite |
| `Connect.ConnectTransactions` | src/validation.cpp:2468-2473 | all transactions of a block one after the other, with the undo data for all but the first |
| `Connect.RollforwardBlock` | src/validation.cpp:4763-4779 | on any coins at all the same map as connecting, without ever breaking a promise of AddCoin |
| `Connect.AccessByTxid` | src/coins.cpp:315-324 | the first unspent coin of the transaction, or a spent one if and only if there is none |
| `Connect.ApplyTxInUndo` | src/validation.cpp:1946-1972 | for any undo data: the coin that goes back, with height and coinbase flag of another output if it has none, whether one was overwritten, and the failure if no other output is there |
| `Connect.RemoveOutputs` | src/validation.cpp:1999-2008 | removes the outputs that can be spent and says whether each was there as the transaction made it |
| `Connect.RestoreInputs` | src/validation.cpp:2017-2022 | for any undo data: the coins after all inputs are restored, the last first, whether all were absent, and exactly when it fails |
| `Connect.DisconnectTx` | src/validation.cpp:1992-2024 | one transaction undone, for any undo data |
| `Connect.DisconnectBlock` | src/validation.cpp:1976-2039 | undoes the transactions in reverse order on any coins with any undo data: the coins left, whether all was as expected, and a failure if and only if sizes differ or a height cannot be found |
| `Connect.GoodUndoes` | src/validation.cpp:1976-2039 | with heights in the undo data it never fails, restores the coins as they are in it, and is clean if and only if every output was there unchanged and no input was |
| `Reconnect.AbsentIff` | src/validation.cpp:2017-2022 | for different inputs, restoring finds each absent if and only if none was there before |
| `Reconnect.CleanReconnects` | src/validation.cpp:1992-2024 | after a clean undo, doing the transaction again gives the same coins but for the pegout mark, which is not compared |
| `Reconnect.ReconnectsClean` | src/validation.cpp:1992-2024 | and only after a clean one |
| `Reconnect.CleanIff` | src/validation.cpp:1992-2024 | undoing a transaction finds nothing amiss if and only if doing it again gives the same coins |
| `Reconnect.AlternateTells` | src/coins.cpp:315-324 | an unspent output of the transaction, if there is one, tells its height and coinbase mark |
| `Reconnect.OldUndoRestores` | src/validation.cpp:1953-1967 | undo data without a height gives back the whole coin if and only if another output of the transaction is unspent, and fails otherwise |
| `Replay.RedoMixed` | src/validation.cpp:4771-4779 | connecting a transaction leaves the same at every coin it touches, whatever was there |
| `Replay.RedoBlock` | src/validation.cpp:4763-4779 | so rolling a block forward over a mixture of its old state and a later one gives a mixture of its new state and that one |
| `Replay.UndoMixed` | src/validation.cpp:4842-4845 | undoing a transaction restores the state before it at every coin it touches, whatever was there |
| `Replay.UndoBlock` | src/validation.cpp:4829-4849 | so undoing a block that was applied in part leaves a version of the coins with its effects undone |
| `Replay.OverwritesAreLost` | src/validation.cpp:2369-2378 | undoing a transaction gives back the coins before it if and only if it overwrote none, which is what the check for duplicate transactions is for |
| `Replay.BackwardExact` | src/validation.cpp:1976-2039 | undoing a block on the coins it left gives the coins before it |
| `Replay.CleanBlock` | src/validation.cpp:1976-2039 | and finds nothing amiss |
| `Replay.ConnectAndDisconnect` | src/validation.cpp:1976-2039 | connecting any fitting block that overwrites no coin and disconnecting it restores every coin and is clean |
| `Replay.RollbackTo` | src/validation.cpp:4829-4849 | the rollback from the old tip to the fork, over a mixture of the coins of two tips, fails if and only if a block or its undo data cannot be read, and else ends with a mixture of the coins of the fork and of the new tip |
| `Replay.RollforwardFrom` | src/validation.cpp:4851-4856 | the roll forward from the fork fails if and only if a block cannot be read, and else ends with exactly the coins of the new tip |
| `Replay.MoveTo` | src/validation.cpp:4816-4856 | both together, through the last common ancestor, or from nothing for the first flush |
| `Replay.ReplayBlocks` | src/validation.cpp:4793-4862 | exactly when it succeeds: the heads are known and every block of the two branches can be read; the database then has the coins and the name of the new tip, and is untouched otherwise; a crash in its own flush leaves what can be replayed again |
| `Replay.TrailRecoverable` | src/txdb.cpp:139-151 | whatever batch of a repeated flush is the last one written, the database is still between the same two tips |
| `Replay.Restarts` | src/validation.cpp:4793-4862 | after any number of restarts that crash anywhere or cannot read, one that goes through brings the database to the new tip |
| `Replay.FlushAndCrash` | src/validation.cpp:4793-4862 | a crash at any batch of a flush, any restarts after it that crash or cannot read, and one that goes through: the database ends with exactly the coins of the new tip, or was never touched |
| `AddrMan.SwapIn` | src/addrman.cpp:99-117 | exchanges two places of vRandom and keeps vRandom and the recorded positions inverse to each other |
| `AddrMan.OneSlotPerBucket` | src/addrman.cpp:150-157 | an entry can be in one slot of a bucket only, so probing that slot finds every reference |
| `AddrMan.PullReferences` | src/addrman.cpp:150-160 | after the loop over all new buckets the table is without the entry and the reference count is zero, so the assertion holds |
| `AddrMan.Manager.constructor` | src/addrman.h:556-583 | an empty manager satisfies the invariant |
| `AddrMan.Manager.Loaded` | src/addrman.h:461-536 | fields that agree with each other make a consistent manager, apart from the entries that found no slot |
| `AddrMan.Manager.SwapRandom` | src/addrman.cpp:99-117 | as SwapIn, on the fields of the manager |
| `AddrMan.Manager.Delete` | src/addrman.cpp:119-131 | removes exactly the entry and its address and keeps the invariant; its assertions are its requirements, met at every call |
| `AddrMan.Manager.Unref` | src/addrman.cpp:136-141 | the slot is emptied and its entry loses one of its references, of which it had at least one |
| `AddrMan.Manager.ClearNew` | src/addrman.cpp:133-146 | the slot is emptied; its holder loses one reference, or is deleted if that was its last; nothing else changes |
| `AddrMan.Manager.RemoveFromNew` | src/addrman.cpp:148-160 | takes a new entry out of every bucket and out of the count |
| `AddrMan.Manager.Link` | src/addrman.cpp:184-187 | entering an entry into an empty slot adds one reference and keeps the invariant |
| `AddrMan.Manager.Insert` | src/addrman.cpp:181-187 | clearing a slot and entering another entry loses at most the entry whose last reference that slot was |
| `AddrMan.Manager.Untry` | src/addrman.cpp:168-176 | takes the occupant out of the tried table; it is never the entry being promoted |
| `AddrMan.Manager.EvictTried` | src/addrman.cpp:166-188 | the occupant of a tried slot is back in the new table in the bucket of its source, and at most the entry displaced there is lost |
| `AddrMan.Manager.Requeue` | src/addrman.cpp:178-188 | an entry taken out of the tried table enters the new bucket of its source, and at most the entry displaced there is lost |
| `AddrMan.Manager.PlaceTried` | src/addrman.cpp:189-193 | enters the entry into its empty tried slot |
| `AddrMan.Manager.MakeRoom` | src/addrman.cpp:148-189 | the exact entries and new table when the tried slot has been emptied |
| `AddrMan.Manager.MakeTried` | src/addrman.cpp:148-194 | the entry holds its tried slot, the old occupant is new again, and the surviving entries and the new table are given exactly; no assertion can fail |
| `AddrMan.Manager.Touch` | src/addrman.cpp:214-217 | changing statistics only keeps the invariant |
| `AddrMan.Manager.Find` | src/addrman.cpp:74-85 | finds the entry of an address if and only if the address is known |
| `AddrMan.FindBucket` | src/addrman.cpp:225-235 | the search from a random bucket misses nothing: it finds none if and only if the entry has no reference |
| `AddrMan.Manager.Promote` | src/addrman.cpp:225-259 | an entry is queued if and only if its tried slot is taken and testing is asked for, and moved otherwise; the exit for an entry in no bucket is never taken |
| `AddrMan.Manager.GoodKnown` | src/addrman.cpp:214-260 | the exact new statistics, tables and collision set in each case; queued if and only if not tried yet, testing is asked for and the slot is taken |
| `AddrMan.Manager.Good` | src/addrman.cpp:196-260 | each outcome if and only if the state before the call asks for it, with its exact effect; the exit for an entry in no bucket is never taken |
| `AddrMan.Manager.Create` | src/addrman.cpp:87-97 | a new id, address and position, keeping the invariant with the entry in no table yet |
| `AddrMan.Manager.Penalize` | src/addrman.cpp:306 | the time of a new entry less the penalty, not below zero |
| `AddrMan.Manager.Refresh` | src/addrman.cpp:276-303 | the refreshed time and services of a known entry, and exactly when another bucket is tried, computed step by step |
| `AddrMan.TriesAnother` | src/addrman.cpp:286-303 | another bucket is tried if and only if the address brings news, is not tried, has fewer than eight references and the odds, halved by each reference, allow it |
| `AddrMan.Factor` | src/addrman.cpp:297-303 | each reference held makes another one twice as hard to get |
| `AddrMan.Refreshed` | src/addrman.cpp:277-284 | time and services may change, but nothing the tables depend on; the time moves forward by more than an hour or not at all and is then not far behind what was heard |
| `AddrMan.Manager.Place` | src/addrman.cpp:311-331 | exactly which slot is taken, which entry is displaced and when the new entry is dropped |
| `AddrMan.Manager.Enter` | src/addrman.cpp:315-325 | the entry takes the slot, and at most the holder is lost |
| `AddrMan.Manager.Drop` | src/addrman.cpp:327-330 | the entry without a slot is deleted and nothing else |
| `AddrMan.Manager.Register` | src/addrman.cpp:304-309 | a fresh entry, counted but in no bucket |
| `AddrMan.Manager.AddUnknown` | src/addrman.cpp:304-332 | the exact entries and new table after adding an unknown address, which is known afterwards if and only if its slot was free or its holder may be displaced |
| `AddrMan.Manager.AddKnown` | src/addrman.cpp:274-331 | a known address is refreshed and, where another bucket is tried, placed there; only addresses not worth keeping are forgotten |
| `AddrMan.Manager.Add` | src/addrman.cpp:262-333 | the exact result for unroutable, unknown and known addresses, and when an unknown one stays; only addresses not worth keeping are forgotten; the tried table and the collision set are untouched |
| `AddrMan.ForgetsOnlyBad` | src/addrman.cpp:310-331 | placing an entry deletes no other that is worth keeping |
| `AddrMan.AddedIff` | src/addrman.cpp:304-333 | an unknown address is known afterwards if and only if its slot was free or its holder may be displaced, although true is returned in either case |
| `AddrMan.Manager.FindExact` | src/addrman.cpp:335-347 | the one entry with this address and port, or none |
| `AddrMan.Manager.Attempt` | src/addrman.cpp:335-355 | the exact statistics of every entry: a failure counts once after each success |
| `AddrMan.OneFailureAtMost` | src/addrman.cpp:335-355 | until the next success anywhere, no number of attempts adds more than one failure |
| `AddrMan.SuccessCounts` | src/addrman.cpp:196-260 | a success makes an address worth keeping for a minute, and for as long as its own time is no more than a month old |
| `AddrMan.Manager.Connected` | src/addrman.cpp:507-525 | the time moves only when more than twenty minutes behind, and only for that entry |
| `AddrMan.Seen` | src/addrman.cpp:520-524 | the time moves forward by more than twenty minutes or not at all, and is never further behind than that |
| `AddrMan.Manager.SetServices` | src/addrman.cpp:527-543 | the services of that entry and nothing else |
| `AddrMan.Draw` | src/addrman.cpp:497-503 | one draw swaps a random entry not drawn before into the next place |
| `AddrMan.Gather` | src/addrman.cpp:492-504 | the list is the good entries among those drawn, in order, up to the limit and complete below it |
| `AddrMan.GoodOfExact` | src/addrman.cpp:492-504 | such a list has every good entry drawn, no other and none twice |
| `AddrMan.Manager.GetAddr` | src/addrman.cpp:482-505 | shuffles vRandom within the invariant; every address returned is of a good entry drawn, once, and every good entry drawn is returned unless the limit stops it |
| `AddrMan.GetAddrLimit` | src/addrman.cpp:484-490 | the most addresses within the number and the percentage asked for, where zero asks for no limit |
| `AddrMan.Manager.Evict` | src/addrman.cpp:575-592 | the queued entry holds its tried slot, with the exact effect of the promotion |
| `AddrMan.Manager.Resolve` | src/addrman.cpp:547-601 | the queued entry gets the slot if and only if the occupant was tried within four hours and more than a minute ago without success in four hours, or was not tried in that time and the entry has waited more than forty minutes; it stays queued exactly when neither that nor a recent success of the occupant settles it, each age by its own reading of the clock |
| `AddrMan.Manager.ResolveCollisions` | src/addrman.cpp:545-602 | every queued entry is settled once, each by the state it meets and its own readings of the clock; none is ever found with a free tried slot, and an occupant with a success within four hours by every reading keeps its slot |
| `AddrMan.JudgedByTimes` | src/addrman.cpp:569-590 | the verdict over a queued entry is what the times of success and attempt ask for |
| `AddrMan.ReplacesElsewhere` | src/addrman.cpp:545-602 | putting an entry in place changes nothing for the holder of any other tried slot |
| `AddrMan.SafeStaysHeld` | src/addrman.cpp:569-572 | an occupant with a success within four hours keeps its slot through every settling |
| `AddrMan.Manager.SelectTriedCollision` | src/addrman.cpp:604-629 | returns the occupant some queued entry would displace, so the slot read is never empty; a queued entry that is gone is removed |
| `AddrMan.CollisionsKeep` | src/addrman.cpp:604-629 | tried slots never become free, so queued entries keep their occupants |
| `AddrMan.CreateIndexes` | src/addrman.cpp:87-97 | appending a new id keeps mapAddr and vRandom inverse to mapInfo |
| `AddrMan.UntryKeeps` | src/addrman.cpp:173-176 | taking out the occupant keeps every structure and moves one entry between the counts |
| `AddrMan.TryKeeps` | src/addrman.cpp:191-193 | and so does putting an entry into its empty slot |
| `AddrMan.LinkKeeps` | src/addrman.cpp:322-325 | and entering a reference |
| `AddrMan.UnrefKeeps` | src/addrman.cpp:137-141 | and dropping one |
| `AddrMan.DeleteKeeps` | src/addrman.cpp:119-131 | and deleting an entry without references |
| `AddrMan.AllCounted` | src/addrman.cpp:410-411 | the length of vRandom is the number of tried and new entries |
| `AddrMan.OneTriedSlot` | src/addrman.cpp:444-456 | a tried entry is in exactly one tried slot |
| `AddrMan.ValidPassesCheck` | src/addrman.cpp:405-479 | the invariant implies all structural tests of the debug check |
| `AddrMan.SettledTimes` | src/addrman.cpp:545-602 | settling collisions keeps the times of all entries in order, whatever the clock reads, as long as it reads positive times |
| `AddrMan.TimesOkPasses` | src/addrman.cpp:417-437 | times in order pass the tests on them in the debug check |
| `AddrMan.Step` | src/addrman.cpp:87-333 | every operation keeps the invariant, and with positive clock readings the times too |
| `AddrMan.Run` | src/addrman.cpp:87-333 | every run from an empty manager passes the debug check: all structural tests, and with positive clock readings the tests of times |
| `AddrManFile.WriteNew` | src/addrman.h:372-382 | lists the new entries once each, with matching numbers; the assertion on the count holds |
| `AddrManFile.WriteTried` | src/addrman.h:383-391 | lists the tried entries once each; the assertion on the count holds |
| `AddrManFile.WriteBucket` | src/addrman.h:392-405 | the numbers written for a bucket are exactly those of the entries in it |
| `AddrManFile.Serialize` | src/addrman.h:350-413 | the stream describes the manager: entries, buckets, format and AS map |
| `AddrManFile.AddressIsFree` | src/addrman.h:461-468 | when no two records have one address, no address is entered twice |
| `AddrManFile.LoadNew` | src/addrman.h:461-469 | the records of the new table become the entries of the same numbers |
| `AddrManFile.TakenOrFirst` | src/addrman.h:476-480 | a tried slot is taken exactly when an earlier record had it |
| `AddrManFile.EnterKeeps` | src/addrman.h:480-486 | entering a record whose slot is free keeps all indexes consistent |
| `AddrManFile.ReadTried` | src/addrman.h:473-489 | a tried record is entered exactly when it is the first in its slot, and is counted as lost otherwise |
| `AddrManFile.LoadTried` | src/addrman.h:471-490 | the entries are the records of the new table and the tried ones that are first in their slots; the rest are counted |
| `AddrManFile.ReadBucket` | src/addrman.h:495-504 | after each bucket, every number is mapped to the last bucket that lists it |
| `AddrManFile.ReadBuckets` | src/addrman.h:492-505 | every number listed is mapped to the last bucket that lists it, and no other number is mapped |
| `AddrManFile.PlaceOne` | src/addrman.h:516-536 | the entry goes to its listed slot if the buckets are usable and the slot is free, else to the slot its source gives if that is free, else nowhere |
| `AddrManFile.PlaceNew` | src/addrman.h:516-536 | the new table is the one given by placing the entries in turn; each has at most one slot, at its own position |
| `AddrManFile.WithinLimits` | src/addrman.h:453-459 | a consistent manager never exceeds the size limits |
| `AddrManFile.LoadedCounts` | src/addrman.h:461-490 | the counters agree with the entries read |
| `AddrManFile.LoadedStatus` | src/addrman.h:516-547 | only new entries that found no slot are in neither table |
| `AddrManFile.Prune` | src/addrman.h:538-548 | deletes exactly the new entries without a reference, counts them and leaves a valid manager |
| `AddrManFile.PrunedReadBack` | src/addrman.h:538-552 | what is left is an entry for every record with a slot, and the number of entries is the number entered less those deleted |
| `AddrManFile.LoadTables` | src/addrman.h:461-536 | all that is read, with every structure consistent |
| `AddrManFile.Unserialize` | src/addrman.h:416-554 | refused exactly for an unknown format or excessive sizes; otherwise a valid manager with exactly the entries that have a slot, each as recorded, and an exact count of those lost |
| `AddrManFile.Survives` | src/addrman.h:461-548 | an address comes back if and only if its record gets a slot, and then with its record, its table and its reference count |
| `AddrManFile.WrittenOnce` | src/addrman.h:372-391 | a consistent manager writes no address twice |
| `AddrManFile.NotRefused` | src/addrman.h:434-459 | what a consistent manager writes is never refused |
| `AddrManFile.Returned` | src/addrman.h:350-554 | every address read back was written, with the same recorded fields and the same table |
| `AddrManFile.PlacedBySource` | src/addrman.h:524-534 | when the buckets are not usable, a slot goes to the first entry whose source gives it |
| `AddrManFile.FirstToReturn` | src/addrman.h:471-548 | the records that keep their entries are those of the entries first due their slots |
| `AddrManFile.ReadAnew` | src/addrman.h:350-554 | written under one AS map and read under another: a valid manager, every address as it was, and an address survives if and only if no older entry of its table is due the same slot |
| `AddrManFile.EveryEntryListed` | src/addrman.h:392-405 | every new entry is listed in a bucket, and the last bucket listing it held it |
| `AddrManFile.PlacedAsBefore` | src/addrman.h:516-523 | with the buckets usable every entry gets a slot that it held before |
| `AddrManFile.OwnTriedSlots` | src/addrman.h:473-489 | the tried slots of what was written are all different, so none is lost |
| `AddrManFile.RoundTrip` | src/addrman.h:350-554 | under the same AS map nothing is lost, each address keeps its record and its table, and each new entry is in exactly one bucket, which it occupied before |
| `CheckQueue.BatchFits` | src/checkqueue.h:106 | the divisor is positive and a batch has at least one check and no more than are queued |
| `CheckQueue.BatchShare` | src/checkqueue.h:101-106 | a batch is an even share of the queue with idle threads counted twice, up to the batch size, and at least one |
| `CheckQueue.TakeKeepsInv` | src/checkqueue.h:101-115 | taking a batch keeps the invariant |
| `CheckQueue.SleepKeepsInv` | src/checkqueue.h:88-98 | going to sleep keeps it |
| `CheckQueue.ReturnIsExact` | src/checkqueue.h:89-96 | at the return nothing is queued or in flight, and the answer is whether every check added passes |
| `CheckQueue.ProceedKeepsInv` | src/checkqueue.h:87-115 | the whole critical section after the clean-up keeps it |
| `CheckQueue.EntryKeepsInv` | src/checkqueue.h:83-86 | entering the loop |
| `CheckQueue.FinishKeepsInv` | src/checkqueue.h:76-82 | accounting for a finished batch, with the wake-up of the master |
| `CheckQueue.WakeKeepsInv` | src/checkqueue.h:98-99 | waking up, notified or not |
| `CheckQueue.ExecuteKeepsInv` | src/checkqueue.h:117-121 | running or skipping one check |
| `CheckQueue.AddKeepsInv` | src/checkqueue.h:144-157 | adding checks and notifying one or all workers |
| `CheckQueue.StepKeepsInv` | src/checkqueue.h:66-157 | every step of every thread: nTodo is queued plus in-flight checks, nIdle the sleepers, nTotal the threads in the loop, and no failing check is forgotten |
| `CheckQueue.RunKeepsInv` | src/checkqueue.h:66-157 | the invariant holds in every state of every interleaving |
| `CheckQueue.WaitIsExact` | src/checkqueue.h:138-142 | in every run Wait returns true if and only if every check added since the last Wait passes, with nothing left over |
| `CheckQueue.SleepingMasterHasWorker` | src/checkqueue.h:79-100 | a master asleep without a pending wake-up implies an empty queue and a worker with a batch |
| `CheckQueue.WokenWhenDone` | src/checkqueue.h:76-82 | a sleeping master is woken exactly when no check is queued or in flight |
| `CheckQueue.WorkDecreases` | src/checkqueue.h:73-122 | every working step uses up effort, so no schedule runs on for ever without new checks or unnotified wake-ups |
| `CheckQueue.WaitProgresses` | src/checkqueue.h:73-122 | until Wait has returned some thread can take a working step |
| `CheckQueue.WorkRunBound` | src/checkqueue.h:73-122 | from any state of a run, working steps alone are at most as many as the measure says |
| `CheckQueue.WaitReturns` | src/checkqueue.h:66-142 | and when none is left to take, Wait has returned: the master gets its answer |
| `Packages.CachedBounds` | src/miner.cpp:452-455 | the cached totals bound what a package still needs, whatever is in the block |
| `Packages.TakeOff` | src/miner.cpp:337-352 | one descendant: left alone if just added, entered or updated otherwise |
| `Packages.UpdateFor` | src/miner.cpp:333-353 | all descendants of one added transaction |
| `Packages.UpdatePackagesForAdded` | src/miner.cpp:329-355 | afterwards the side table holds exactly the old entries and the descendants of what was added, each with its totals less its added ancestors one after the other in the order of hashes, as Off says |
| `Packages.OffWithout` | src/miner.cpp:337-352 | whatever the order, size, sigops and MWEB weight lack exactly the ancestors taken off |
| `Packages.OffFees` | src/miner.cpp:341-351 | of the modified fees an old entry loses the base fees of those ancestors, and a new one also the change made to the fee of the first |
| `Packages.OffAgain` | src/miner.cpp:329-355 | taking off in two turns is taking off at once |
| `Packages.FeesRight` | src/miner.h:119-132 | how far the modified fees left are off: by the changes users made to the fees taken off, but for that of the first ancestor of a new entry; so they are right if and only if these cancel |
| `Packages.FeesWrong` | src/miner.h:123-129 | they are wrong for a transaction with two ancestors included one after the other if the second has a changed fee |
| `Packages.FeesWrongTogether` | src/miner.cpp:333-352 | and for one whose two ancestors are included together if the later in the order of hashes has |
| `Packages.ComesBackStale` | src/miner.cpp:337-344 | an entry erased after its first ancestor was included comes back, when the second is, with the first one still counted |
| `Packages.TakenOffBounds` | src/miner.cpp:329-355 | so its entries stay upper bounds on what is still needed, and none is in the block |
| `Miner.SortForBlock` | src/miner.cpp:372-381 | the package, once each, by ancestor count |
| `Miner.AncestorCountsLess` | src/miner.h:87-97 | an ancestor has fewer ancestors |
| `Miner.SortedIsTopological` | src/miner.h:87-97 | so each entry of a sorted package has its ancestors in the block or before it |
| `Miner.IncludingKeeps` | src/miner.cpp:277-327 | adding a transaction whose ancestors are in keeps the order valid and all running totals exact |
| `Miner.AffordNext` | src/miner.cpp:244-254 | what is used plus what the rest of the package may use never rises |
| `Miner.AddPackage` | src/miner.cpp:511-525 | adds a prefix of the package, all of it unless the MWEB miner refuses the next one, and stays within the price of the package; nothing it adds is unwanted |
| `Miner.NextIsReady` | src/miner.cpp:511-525 | the next entry of the package has all ancestors in the block, also midway |
| `Miner.FitsLimits` | src/miner.cpp:244-254 | a package that passed the test keeps weight, sigops and MWEB weight within limits, even if added in part |
| `Miner.ErasedOk` | src/miner.cpp:514-524 | erasing a package keeps the side table right |
| `Miner.Select` | src/miner.cpp:504-532 | a package that passed the tests is added whole with the side table brought up to date, or in part with the rest marked as failed because the MWEB miner refused one of it |
| `Miner.Consider` | src/miner.cpp:468-532 | which test refused the transaction and what is erased and marked then, or what was taken up; every transaction new in the block may be mined into it |
| `Miner.AdmittedGrows` | src/miner.cpp:260-275 | only transactions that are final, and without witness or MWEB data where these are not wanted, enter the block |
| `Miner.ChosenIsPaid` | src/miner.cpp:463-466 | a package that gets past the fee test pays at least the minimum for its size by its exact totals |
| `Miner.FailedIsRefused` | src/miner.cpp:265-269 | a transaction that failed is never taken up again |
| `Miner.Choose` | src/miner.cpp:422-461 | the transaction considered is not in the block and its totals bound its needs; if all transactions have rates and the pool is sorted by them, nothing in the side table or further on in the pool is better |
| `Miner.BestModified` | src/miner.cpp:426-427 | no entry of the side table is better than the first one |
| `Miner.BetterOfTwo` | src/miner.cpp:428-446 | the better of that and the next entry of the pool is the best of all |
| `Miner.BestOnOffer` | src/miner.cpp:463-466 | what is on offer when the fee is too low: a transaction with its totals as the table or the pool has them, and no transaction left that is better with what the transactions handled leave of its own totals |
| `AncestorScore.ScoredHasRate` | src/txmempool.h:355-371 | a transaction with a size or a fee of its own has a rate, finite or infinite, whatever its ancestors are |
| `AncestorScore.PickedIsLower` | src/txmempool.h:330-333 | the rate used is the lower of that of the transaction and that of it with its ancestors |
| `AncestorScore.BetterByRate` | src/txmempool.h:334-353 | a transaction goes first if the lower of its own rate and that of it with its ancestors is higher, or the same and its hash is smaller |
| `AncestorScore.BetterTrans` | src/txmempool.h:334-353 | between entries with rates the comparison is transitive |
| `AncestorScore.BetterTotal` | src/txmempool.h:334-353 | and one of any two different transactions is better |
| `AncestorScore.LeadStrict` | src/txmempool.h:345-352 | what is not above a rate that is too low is too low |
| `AncestorScore.NoRateNoOrder` | src/txmempool.h:334-353 | any entry without size and with no positive fee stands in a circle with two others, so no order puts it right |
| `Miner.StaleIsCovered` | src/miner.cpp:416-420 | passing over a stale entry loses nothing |
| `Miner.LogBroken` | src/miner.cpp:514-521 | the rest of a package broken off midway is turned down, each with its reason |
| `Miner.HandledOnce` | src/miner.cpp:504-532 | a transaction is taken off once, when it is in the block, and unless packages broke off all in the block are |
| `Miner.LedgerReads` | src/miner.cpp:414-461 | over the whole run: for every transaction left that has not failed, the table if it is there and the pool if not hold exactly the totals that the transactions handled so far leave |
| `Miner.LedgerNext` | src/miner.cpp:329-355 | taking off a package keeps that so, also for entries that failed and come back |
| `Miner.ReducedIsNeeded` | src/miner.cpp:452-461 | without broken packages these totals are exactly what is still needed in size, sigops and MWEB weight, and in modified fees if and only if the changed fees cancel |
| `Miner.AfterRefusing` | src/miner.cpp:468-502 | a refusal joins the history with its reason; refusals behind one pick are of different transactions |
| `Miner.AfterTaking` | src/miner.cpp:504-532 | a package taken up joins the history, whole or up to the transaction refused, and the table follows |
| `Miner.TakeTurn` | src/miner.cpp:414-533 | one turn of the loop keeps block, limits, side table and history in order and gets closer to the end |
| `Miner.RoomySelects` | src/miner.cpp:244-275 | when everything fits twice over and may be mined, no test refuses a package |
| `Miner.RoomyTakesAll` | src/miner.cpp:414-533 | so with ample room nothing is ever turned down |
| `Miner.StaysCovered` | src/miner.cpp:414-533 | every transaction passed is in the block, in the side table, or turned down |
| `Miner.SelectPackages` | src/miner.cpp:393-534 | terminates; the block is ancestor-closed in order, exact in its totals and within limits, holds only transactions that are final, without witness or MWEB data where these are not wanted, and holds exactly the packages taken up, each of which paid enough, whose number is counted and no two of which have one leader; why it ended is told: for a low fee, a transaction whose totals pay too little and than which no transaction left is better; for failures, more than a thousand different transactions too big for this block since the last package; and if nothing was left to look at, every transaction of the pool is in the block or was turned down for a reason that held at the time |
| `Miner.MaxWeight` | src/miner.cpp:84 | the weight option is brought between 4000 and the maximum less 4000, and kept where it is already |
| `Miner.BlockAssembler.constructor` | src/miner.cpp:78-119 | the limits and the empty block with room for the coinbase |
| `Miner.VisibleInOrder` | src/miner.cpp:283-311 | leaving out MWEB-only transactions keeps the order of the rest valid |
| `Miner.BlockAssembler.FillBlock` | src/miner.cpp:105-119 | from the empty block: all of that, every listed transaction comes after its listed ancestors, and with ample room the whole pool is taken |
| `LowFees.LeftScoresLow` | src/miner.cpp:463-466 | when a plain pool ends for a low fee, every transaction left pays less than the minimum rate, alone or with what it needs |
| `LowFees.TreesPayLittle` | src/miner.cpp:463-466 | if all members of a set score low and none overlap, the set as a whole pays too little |
| `LowFees.OverlapPays` | src/miner.cpp:463-466 | if two overlap, there are fees and sizes for which all score low and the set pays enough |
| `LowFees.LowExactly` | src/miner.cpp:464 | so the remark that everything else has a lower fee rate is right for exactly the shapes in which no two transactions share an ancestor unless one is an ancestor of the other |
| `LowFees.LeftPaysTooLittle` | src/miner.cpp:463-466 | after an end for a low fee any such set of transactions left, with all that its members need, pays less than the minimum rate |
| `LowFees.DiamondEnds` | src/miner.cpp:463-466 | a pool of four transactions at which the selection ends at once |
| `LowFees.DiamondPays` | src/miner.cpp:464 | though the package of the last one pays more than the minimum rate |
| `LowFees.BelowFee` | src/policy/feerate.cpp:46-61 | a fee below the rounded minimum is below the rate itself |
| `LowFees.GetFee` | src/policy/feerate.cpp:46-61 | the rate times the size, rounded down to thousandths, and at least 1 for a positive rate and size |
| `MerkleBlock.WidthMeaning` | src/merkleblock.h:69-72 | a position is within the tree if and only if its first leaf exists |
| `MerkleBlock.BadStays` | src/merkleblock.cpp:95-131 | an error once seen is never forgotten |
| `MerkleBlock.HashSplits` | src/merkleblock.cpp:115-130 | a true hash of an inner node means true hashes of both children, or a collision between the pairs hashed |
| `MerkleBlock.SubtreeIsGenuine` | src/merkleblock.cpp:95-131 | any subtree at all that reads without error and hashes to the true value has only genuine matches, or the hashing shows a collision |
| `MerkleBlock.HashCount` | src/merkleblock.h:40-44 | the number of stored hashes is at most the leaves below, and at most one plus the height for every match |
| `MerkleBlock.NodesDiffer` | src/merkleblock.cpp:120-124 | with distinct ids no two nodes of one height have one hash, unless two pairs of the tree itself collide |
| `MerkleBlock.DistinctNoTwins` | src/merkleblock.cpp:120-124 | so an honest tree over distinct ids trips the check for equal children only if it has such a collision |
| `MerkleBlock.ReadsBack` | src/merkleblock.cpp:77-131 | wherever the encoding of a subtree without equal children stands, reading it gives the true hash and exactly the matched leaves |
| `MerkleBlock.TreeHeight` | src/merkleblock.cpp:138-141 | the least height with one node |
| `MerkleBlock.ScanLeaves` | src/merkleblock.cpp:78-81 | whether some leaf below the node is matched |
| `MerkleBlock.TraverseAndBuild` | src/merkleblock.cpp:77-93 | appends exactly the encoding of the subtree |
| `MerkleBlock.TraverseAndExtract` | src/merkleblock.cpp:95-131 | consumes and appends exactly as the reference decoder says |
| `MerkleBlock.BitsToBytes` | src/merkleblock.cpp:12-19 | bit p of the input is bit p%8 of byte p/8, and padding is clear |
| `MerkleBlock.BytesToBits` | src/merkleblock.cpp:21-28 | the inverse reading |
| `MerkleBlock.PartialMerkleTree.constructor` | src/merkleblock.cpp:133-145 | holds the encoding of the mask over the whole tree |
| `MerkleBlock.PartialMerkleTree.Received` | src/merkleblock.h:88-96 | holds the flag bits of the bytes and starts without error |
| `MerkleBlock.PartialMerkleTree.ExtractMatches` | src/merkleblock.cpp:149-180 | the root and matches of the reference decoder if all plausibility tests pass, and null otherwise; with a root, no bit and no hash of the proof was left unread but the padding |
| `MerkleBlock.ReadsByShape` | src/merkleblock.cpp:102-147 | without an error one bit is read for every node met and one hash wherever the descent stops |
| `MerkleBlock.AnswerIsWellMade` | src/merkleblock.cpp:170-178 | a root is returned only for a proof whose hashes are exactly as many as the descent needs and whose bits are that many up to the padding |
| `MerkleRoot.FindTwins` | src/consensus/merkle.cpp:49-52 | whether two neighbours that are hashed together are the same |
| `MerkleRoot.HashRow` | src/consensus/merkle.cpp:53-57 | the row above, with an odd last hash paired with itself |
| `MerkleRoot.ComputeMerkleRoot` | src/consensus/merkle.cpp:45-63 | the root of the rows, null for no leaves, and a mutation reported if and only if some row has twins |
| `MerkleRoot.LongerHasTwins` | src/consensus/merkle.cpp:13-42 | of two rows with the same pairs the longer one has twins |
| `MerkleRoot.RootBinds` | src/consensus/merkle.cpp:13-42 | of the lists whose trees have one height only one without a reported mutation has a given root, unless two pairs hashed on the way collide |
| `MerkleRoot.DoubledSharesRoot` | src/consensus/merkle.cpp:13-42 | repeating the last hash of an odd list keeps the root and is reported |
| `MerkleRoot.TreeHasBlockRoot` | src/consensus/merkle.cpp:66-74 | the root that partial Merkle trees are checked against is the Merkle root of the block |
| `MerkleBlock.Authentication` | src/merkleblock.cpp:149-180 | for any bits and hashes at all: an answer equal to the true non-null root proves every extracted id to be the one at its index, or two different pairs hashed on the way have one hash |
| `MerkleBlock.Completeness` | src/merkleblock.cpp:77-93 | the encoding of any mask over a tree without equal children answers with the true root and exactly the matched ids in order, within the hash bounds |
| `MerkleBlock.TwinsRefused` | src/merkleblock.cpp:120-124 | and with equal children anywhere in the part read the answer is null, so the condition is exact |
| `MerkleBlock.Transmit` | src/merkleblock.h:88-96 | building, packing and unpacking keeps the encoding up to padding |
| `MerkleBlock.RoundTrip` | src/merkleblock.cpp:133-180 | build, send and extract over distinct ids: the true root and exactly the matched ids with their indices, or two pairs of the tree collide |
| `MerkleSize.LoneIsLevels` | src/merkleblock.h:40-44 | the stored nodes with one child are counted by the heights at which the row below is odd and a leaf under the last node is matched |
| `MerkleSize.BitCount` | src/merkleblock.h:46-52 | flag bits are twice the hashes less one, and one more for each stored node with one child, below any node |
| `MerkleSize.FlagBits` | src/merkleblock.h:46-52 | the same for the whole tree, in terms of the number of transactions and the mask |
| `MerkleSize.FlagBitBound` | src/merkleblock.h:51 | the documented bound of 2*N-1 flag bits holds if and only if no row is odd below a matched last node |
| `MerkleSize.FlagBitBoundFails` | src/merkleblock.h:51 | it fails for three transactions of which the last is matched |
| `MerkleSize.HashesByNodes` | src/merkleblock.h:28-33 | the stored hashes are one more than the expanded nodes, less those with one child |
| `MerkleSize.ExpandedByRows` | src/merkleblock.h:28-33 | the expanded nodes counted row by row |
| `MerkleSize.StoredHashes` | src/merkleblock.h:40-44 | the number of hashes from the mask alone: the nodes above a match at all heights, less the rows with a lone one, and one |
| `MerkleSize.SizeBound` | src/merkleblock.h:35-39 | the documented bound on the serialized size holds if and only if a plain inequality between two numbers counted from the mask does |
| `MerkleSize.SizeBoundFails` | src/merkleblock.h:35-39 | it fails by one byte for 1025 transactions, all matched |
| `CuckooCache.LocInTable` | src/cuckoocache.h:242-252 | every location is within the table |
| `CuckooCache.EverySlotUsed` | src/cuckoocache.h:242-252 | no slot is left out: some hash selects it |
| `CuckooCache.BitPackedFlags.constructor` | src/cuckoocache.h:60-67 | room for all flags, every one set |
| `CuckooCache.BitPackedFlags.BitSet` | src/cuckoocache.h:90-93 | sets that flag and no other |
| `CuckooCache.BitPackedFlags.BitUnset` | src/cuckoocache.h:101-104 | clears that flag and no other |
| `CuckooCache.BitPackedFlags.BitIsSet` | src/cuckoocache.h:111-114 | reads that flag |
| `CuckooCache.AllowErase` | src/cuckoocache.h:265-268 | marks one slot collectable in the packed flags and no other |
| `CuckooCache.PleaseKeep` | src/cuckoocache.h:274-277 | marks one slot kept and no other |
| `CuckooCache.CountLive` | src/cuckoocache.h:294-299 | counts the entries of the current epoch that may not be collected |
| `CuckooCache.Age` | src/cuckoocache.h:305-309 | the old epoch becomes collectable and the current one old |
| `CuckooCache.SwapConserves` | src/cuckoocache.h:431 | exchanging the element in hand with one of the table loses nothing |
| `CuckooCache.FindPresent` | src/cuckoocache.h:400-405 | finds a copy at one of the eight locations if there is one |
| `CuckooCache.FindFree` | src/cuckoocache.h:408-415 | finds a collectable location if there is one |
| `CuckooCache.NextLoc` | src/cuckoocache.h:416-430 | the location after the last one used, cyclically; the second one at the first step |
| `CuckooCache.Displace` | src/cuckoocache.h:406-439 | contents are conserved up to one discarded element, every kept slot stays one of its own locations, a collectable slot is used up unless the limit is reached, and a free location of the new element is used at once |
| `CuckooCache.Cache.KeepAlive` | src/cuckoocache.h:396-405 | an element present is kept alive at its place |
| `CuckooCache.Cache.Place` | src/cuckoocache.h:406-440 | and one not present is placed with the effect of Displace on the flags as packed |
| `CuckooCache.OnlyGarbageLost` | src/cuckoocache.h:388-390 | when a collectable slot was used up, the new element and everything outside that slot are in the table |
| `CuckooCache.OnlyOneLost` | src/cuckoocache.h:388-390 | in any case at most one element is gone, the new one or one other |
| `CuckooCache.Cache.constructor` | src/cuckoocache.h:339-352 | sizes, with the 32-bit product of the epoch size, and nothing live |
| `CuckooCache.Cache.EpochCheck` | src/cuckoocache.h:288-320 | ages exactly when a scan finds the epoch full, and then leaves room for the next insertion within the bound |
| `CuckooCache.Cache.Insert` | src/cuckoocache.h:392-440 | an element found is kept alive and nothing else changes in the table; otherwise one element in, one out, the one lost comes from a slot that was collectable after the epoch check, and only if every location was live may another be lost |
| `CuckooCache.Cache.Contains` | src/cuckoocache.h:469-479 | true if and only if the element is at one of its locations; erasing only marks that slot |
| `CuckooCache.LiveIsFound` | src/cuckoocache.h:469-479 | nothing that must be kept is out of reach of a lookup |
| `CuckooCache.Run` | src/cuckoocache.h:288-320 | over every run the live entries of the current epoch stay within the epoch size plus max(1, size/16), which is less than 48 percent of the table and two entries |
| `ArithUint256.BaseUint.constructor` | src/arith_uint256.h:54-62 | the number of a 64-bit word |
| `ArithUint256.BaseUint.Copy` | src/arith_uint256.h:39-45 | the same limbs in a new array |
| `ArithUint256.BaseUint.Assign` | src/arith_uint256.h:47-52 | takes over the limbs |
| `ArithUint256.CarryOut` | src/arith_uint256.h:134-141 | limbs and final carry are remainder and quotient of the sum |
| `ArithUint256.BaseUint.Add` | src/arith_uint256.h:132-142 | addition modulo 2^256, also onto itself |
| `ArithUint256.BaseUint.Increment` | src/arith_uint256.h:170-177 | plus one modulo 2^256 |
| `ArithUint256.BaseUint.Complement` | src/arith_uint256.h:66-72 | the largest number less this one |
| `ArithUint256.BaseUint.Negate` | src/arith_uint256.h:74-81 | the negative modulo 2^256 |
| `ArithUint256.BaseUint.Subtract` | src/arith_uint256.h:144-148 | subtraction modulo 2^256 |
| `ArithUint256.BaseUint.MulSmall` | src/arith_uint256.cpp:54-64 | multiplication by a 32-bit number modulo 2^256 |
| `ArithUint256.ProductFits` | src/arith_uint256.cpp:73-75 | no 64-bit intermediate overflows and the carry fits a limb |
| `ArithUint256.AddRow` | src/arith_uint256.cpp:71-76 | one row of the long multiplication |
| `ArithUint256.Multiplied` | src/arith_uint256.cpp:69-77 | all rows: the product modulo 2^256 |
| `ArithUint256.BaseUint.Multiply` | src/arith_uint256.cpp:66-80 | multiplication modulo 2^256, also by itself |
| `ArithUint256.ShiftedLeft` | src/arith_uint256.cpp:20-35 | multiplication by a power of two modulo 2^256, for any shift |
| `ArithUint256.BaseUint.ShiftLeft` | src/arith_uint256.cpp:20-35 | the same in place |
| `ArithUint256.ShiftedRight` | src/arith_uint256.cpp:37-52 | division by a power of two rounding down, for any shift |
| `ArithUint256.BaseUint.ShiftRight` | src/arith_uint256.cpp:37-52 | the same in place |
| `ArithUint256.TopDecides` | src/arith_uint256.cpp:108-118 | the highest differing limb decides the order |
| `ArithUint256.BaseUint.CompareTo` | src/arith_uint256.cpp:108-118 | the order of the numbers |
| `ArithUint256.BaseUint.EqualTo` | src/arith_uint256.cpp:120-132 | equality with a 64-bit number |
| `ArithUint256.BaseUint.GetLow64` | src/arith_uint256.h:242-246 | the number modulo 2^64 |
| `ArithUint256.BaseUint.TopBit` | src/arith_uint256.cpp:175-179 | the highest set bit of a limb |
| `ArithUint256.BaseUint.Bits` | src/arith_uint256.cpp:170-183 | the length in bits, both bounds |
| `ArithUint256.BaseUint.SetBit` | src/arith_uint256.cpp:99 | setting a clear bit of the quotient adds that power of two |
| `ArithUint256.BaseUint.DivideRound` | src/arith_uint256.cpp:96-103 | one round keeps numerator plus quotient times divisor, and brings the rest below the shifted divisor |
| `ArithUint256.BaseUint.DivideBits` | src/arith_uint256.cpp:96-104 | all rounds: the quotient rounding down |
| `ArithUint256.BaseUint.DivideCopies` | src/arith_uint256.cpp:88-105 | with the alignment and the two early exits |
| `ArithUint256.BaseUint.Divide` | src/arith_uint256.cpp:82-106 | the quotient rounding down, also by itself; it fails if and only if the divisor is zero, with the number already zeroed |
| `Compact.OverflowExact` | src/arith_uint256.cpp:216-219 | the three comparisons say exactly that mantissa times 256 to the size less three reaches 2^256 |
| `Compact.DenotedFits` | src/arith_uint256.cpp:216-219 | so the flag means that the number denoted does not fit |
| `Compact.SetCompact` | src/arith_uint256.cpp:203-221 | the number denoted modulo 2^256, with exact negative and overflow flags |
| `Compact.TargetBelowMax` | src/chain.cpp:134 | no target is the largest number, so target plus one is not zero |
| `Compact.ProofIdentity` | src/chain.cpp:130-134 | the identity that avoids 2^256 |
| `Compact.ProofOf` | src/chain.cpp:134 | the formula gives floor(2^256 / (target + 1)) |
| `Compact.GetBlockProof` | src/chain.cpp:122-135 | for every nBits: zero for negative, overflowing or zero targets, else exactly floor(2^256 / (target + 1)), never dividing by zero |
| `Compact.TopBytes` | src/arith_uint256.cpp:225-232 | the top three bytes and the size, with the topmost bit set if and only if the number fills its bytes |
| `Compact.DropTop` | src/arith_uint256.cpp:233-238 | making room for the sign bit keeps the number represented |
| `Compact.Pack` | src/arith_uint256.cpp:239-243 | the fields read back as put in; the assertions hold |
| `Compact.GetCompact` | src/arith_uint256.cpp:223-244 | denotes the number rounded down to its unit, with a mantissa of at least two bytes, the sign bit as asked, and a size of one more than the full bytes of its bit length |
| `Compact.EncodeDecode` | src/arith_uint256.cpp:203-244 | encoding and decoding returns the number if and only if it has fewer than 24 bits or is divisible by 2 to the 8 * (length / 8 - 2) |
| `Chain.InvertLowest` | src/chain.cpp:70-71 | n & (n - 1) clears exactly the lowest set bit |
| `Chain.GetSkipHeight` | src/chain.cpp:73-82 | strictly below the height, from height 1 on |
| `Chain.GetAncestor` | src/chain.cpp:84-109 | over links built by BuildSkip it ends, never overshoots, and equals walking pprev; null outside the range; from a height of L bits it follows at most 3 L (L + 1) / 2 links |
| `Chain.ClearOne` | src/chain.cpp:70-82 | a skip from an even height that does not pass the target takes one binary one from the part in which the heights differ |
| `Chain.LevelDrops` | src/chain.cpp:70-82 | one that would pass it means the height below differs from the target in fewer bits |
| `Chain.NotPreferred` | src/chain.cpp:95-98 | behind a step back from an odd height the skip is taken or passes the target |
| `Chain.StepDown` | src/chain.cpp:92-107 | every step of the walk lowers one potential |
| `Chain.StepsBound` | src/chain.cpp:78-80 | so any ancestor of a height of L bits is at most 3 L (L + 1) / 2 links away |
| `Chain.AddBlock` | src/chain.cpp:116-120 | a new entry keeps all links well formed and all ancestors |
| `Chain.WalkTwice` | src/chain.cpp:84-109 | an ancestor of an ancestor is an ancestor |
| `Chain.CommonBelow` | src/chain.cpp:163-166 | different blocks of one height share exactly the common ancestors of their parents |
| `Chain.LastCommonAncestor` | src/chain.cpp:154-171 | the highest common ancestor, or null if and only if there is none; the assertion holds |
| `Chain.ActiveChain.constructor` | src/chain.h:413-415 | the empty chain |
| `Chain.ActiveChain.SetTip` | src/chain.cpp:11-21 | whatever chain was there, exactly the path from genesis to the tip, despite the early exit |
| `Chain.ActiveChain.ContainsIsAncestor` | src/chain.h:435-438 | in the chain if and only if an ancestor of the tip |
| `Chain.ActiveChain.WalkToChain` | src/chain.cpp:57-59 | the walk back ends at the highest chain block among the ancestors, or at null if there is none |
| `Chain.ActiveChain.FindFork` | src/chain.cpp:51-60 | the highest ancestor in the chain, or null if and only if there is none |
| `Chain.ActiveChain.StepBack` | src/chain.cpp:36-43 | the ancestor, through the chain index where possible |
| `Chain.ActiveChain.GetLocator` | src/chain.cpp:23-49 | the ancestors at the prescribed heights |
| `Chain.LocatorDescends` | src/chain.cpp:30-46 | from the start strictly down to height zero |
| `Chain.LocatorLength` | src/chain.cpp:30-46 | the exact length: height plus one up to ten, beyond that by powers of two |
| `Chain.LocatorBound` | src/chain.cpp:23-49 | at most 12 + ceil(log2 h) entries |
| `Chain.LocatorNear` | src/chain.cpp:23-49 | the first entry at or below any depth is the one at that depth near the tip, and at most about twice as deep behind that |
| `Chain.PathGrows` | src/chain.cpp:11-21 | adding blocks to the index leaves a chain a chain |
| `AuxPow.CheckMerkleBranch` | src/auxpow.cpp:120-135 | climbs the branch by the bits of the index; null for -1 |
| `MerkleBranch.BranchComplete` | src/auxpow.cpp:120-135 | an honest branch leads to the root |
| `MerkleBranch.BranchBinds` | src/auxpow.cpp:120-135 | two branches of one length and index with one root are equal, leaf and all, or the two climbs hash different pairs to one value |
| `MerkleBranch.BranchSound` | src/auxpow.cpp:120-135 | only the leaf at the index, with its own branch, leads to the root, or the climb collides with the path in the tree |
| `MerkleBranch.PathInTree` | src/auxpow.cpp:120-135 | the pairs on that path are pairs of the tree |
| `AuxPow.DecodeLE32` | src/auxpow.cpp:20-28 | the little-endian number of four bytes |
| `AuxPow.GetExpectedIndex` | src/auxpow.cpp:107-118 | the slot of the two-round generator in the integers: 64-bit wrap-around never shows |
| `AuxPowBuild.SameSlotIff` | src/auxpow.cpp:107-118 | exactly when two chains with two nonces meet in one slot |
| `AuxPowBuild.ChainsMeet` | src/auxpow.cpp:107-118 | for one nonce, chains share a slot exactly when their numbers agree modulo the size of the tree |
| `AuxPowBuild.NoncesMeet` | src/auxpow.cpp:107-118 | for one chain, nonces share a slot exactly when they agree modulo the size of the tree |
| `AuxPowBuild.NonceFor` | src/auxpow.cpp:107-118 | the nonces that bring a chain to a given slot, by undoing both rounds of the generator |
| `AuxPow.Search` | src/auxpow.cpp:70-71 | the first occurrence, or the end |
| `AuxPow.CheckScript` | src/auxpow.cpp:67-104 | accepts if and only if the script commits to the root, the tree size and the slot |
| `AuxPow.Check` | src/auxpow.cpp:31-105 | accepts if and only if every rule holds |
| `AuxPowBuild.CommitsWhen` | src/auxpow.cpp:67-102 | a script with header, reversed root, size and nonce in a row commits if and only if the header occurs nowhere else and the root no earlier |
| `AuxPowBuild.HonestAccepted` | src/auxpow.cpp:31-105 | a proof with honest branches, the child at its slot and such a script is accepted if and only if that holds |
| `AuxPowBuild.CreateAuxPow` | src/auxpow.cpp:137-166 | the minimal proof: a coinbase with the reversed hash, size 1 and nonce 0, alone in its block, and no branches |
| `AuxPowBuild.MinimalAccepted` | src/auxpow.cpp:137-166 | it is accepted if and only if the rule about chain numbers does not forbid a parent with number 0, the script does not happen to hold the header and the hash is not made of bytes 40 only, which the length byte would extend |
| `AuxPow.ScriptBinds` | src/auxpow.cpp:67-102 | one script with a header fixes the root, the height of the tree and the slot |
| `AuxPow.OneChildPerScript` | src/auxpow.cpp:31-135 | two proofs accepted for one chain id with one coinbase script that has the header commit to one child block and one branch, or two pairs hashed in checking them collide |
| `AuxPow.SlotIsNotMinusOne` | src/auxpow.cpp:100-124 | the escape for index -1 is closed in an accepted proof |
| `AuxPow.CoinbaseIsFirstLeaf` | src/auxpow.cpp:59-65 | the coinbase is the first leaf under the root of the parent block, up to such a collision |
| `AuxPow.SlotHoldsChild` | src/auxpow.cpp:93-102 | in a full tree of chains with the committed root the child block is at the slot of its chain, up to such a collision |
| `Bloom.FastMod` | src/bloom.cpp:206-211 | below n |
| `Bloom.Pair` | src/bloom.cpp:237-240 | both words of the cell are within the data |
| `Bloom.EveryCellUsed` | src/bloom.cpp:206-240 | no cell is left out: some hash selects it |
| `Bloom.Mark` | src/bloom.cpp:235-240 | writes the generation into the cell and changes no other |
| `Bloom.WipeWords` | src/bloom.cpp:221-228 | the mask clears exactly the cells of that generation, 64 at a time |
| `Bloom.Wipe` | src/bloom.cpp:223-229 | all cells of one generation are cleared and no other |
| `Bloom.MarkAll` | src/bloom.cpp:233-241 | exactly the cells of the key |
| `Bloom.RollingBloomFilter.constructor` | src/bloom.cpp:173-198 | empty, with half of the elements per generation, rounded up |
| `Bloom.RollingBloomFilter.Reset` | src/bloom.cpp:270-276 | empty again |
| `Bloom.RollingBloomFilter.NewGeneration` | src/bloom.cpp:215-230 | exactly the cells whose latest key is three generations back are cleared |
| `Bloom.RollingBloomFilter.Insert` | src/bloom.cpp:213-242 | the key joins, and every cell of the filter holds the generation of the latest remembered key that selects it, or nothing |
| `Bloom.CellAges` | src/bloom.cpp:215-230 | what the cells should hold when a generation begins |
| `Bloom.CellShifts` | src/bloom.cpp:231-241 | and when a key is added |
| `Bloom.RollingBloomFilter.ReportedIff` | src/bloom.h:92-106 | a key is reported if and only if every cell of it is a cell of one of the latest keys remembered |
| `Bloom.RollingBloomFilter.LatestFound` | src/bloom.h:93-94 | every key among those of the current generation and the two before is found |
| `Bloom.RollingBloomFilter.Contains` | src/bloom.cpp:250-262 | true if and only if all cells of the key are set |
| `Bloom.Run` | src/bloom.h:93-94 | after any inserts and resets a key is reported if and only if every cell of it is a cell of one of the latest keys, N to 3*ceil(N/2) of them as the count since the reset says, and so each of the last N keys is |
| `BlockEncodings.PositionGrows` | src/blockencodings.cpp:74 | prefilled positions strictly grow |
| `BlockEncodings.PlacePrefilled` | src/blockencodings.cpp:69-84 | accepts if and only if every position is allowed, and then places exactly the prefilled transactions |
| `BlockEncodings.NextEmpty` | src/blockencodings.cpp:94-95 | the scan for the next empty slot never leaves the array |
| `BlockEncodings.IndexShortIds` | src/blockencodings.cpp:91-113 | short id i is given the i-th empty slot; it fails if and only if ids collide or a bucket is too full |
| `BlockEncodings.Offer` | src/blockencodings.cpp:119-135 | one transaction at hand: fills, empties or leaves its slot, with an exact count |
| `BlockEncodings.QuietOffer` | src/blockencodings.cpp:119-167 | without two candidates for one slot an offer never empties one |
| `BlockEncodings.Scan` | src/blockencodings.cpp:118-141 | the loop keeps every slot sourced and the count exact, and has offered the entries scanned to the slots one by one |
| `BlockEncodings.PoolLaw` | src/blockencodings.cpp:118-141 | after the mempool a slot is filled if and only if exactly one entry asked for it, and with that entry |
| `BlockEncodings.ExtraLaw` | src/blockencodings.cpp:144-173 | after the extra transactions a slot holds what all that asked for it agree on by witness hash, and is empty where they do not |
| `BlockEncodings.BothScans` | src/blockencodings.cpp:115-173 | both rules together, for every slot |
| `BlockEncodings.AllOnce` | src/blockencodings.cpp:137-140 | the mempool scan stops early only when every slot was asked for exactly once so far |
| `BlockEncodings.AvailableIff` | src/blockencodings.cpp:115-173 | without ambiguity a slot is filled if and only if it was prefilled or some transaction at hand has its id, despite the early exits |
| `BlockEncodings.TakeAtHand` | src/blockencodings.cpp:115-173 | both scans together fill a slot if and only if the rule about colliding short ids allows it, and with the transaction it names |
| `BlockEncodings.PartiallyDownloadedBlock.constructor` | src/blockencodings.h:138-145 | nothing received yet |
| `BlockEncodings.PartiallyDownloadedBlock.InitData` | src/blockencodings.cpp:57-178 | for any compact block: exactly when it is invalid or failed, where every filled slot comes from, which slots are filled when short ids collide, and an exact filled count |
| `BlockEncodings.PartiallyDownloadedBlock.FillBlock` | src/blockencodings.cpp:188-233 | invalid if and only if nothing was received or the number of missing transactions is wrong; otherwise they are in the empty slots in order, and the result is that of the check of the block |
| `BlockEncodings.Encode` | src/blockencodings.cpp:19-37 | for any block: the coinbase prefilled and, with MWEB data, the last transaction at its 16-bit distance, and short ids of the others but the integrating ones in order; of well-shaped blocks the receiver can place them |
| `BlockEncodings.EncodedPositions` | src/blockencodings.cpp:23-28 | the prefilled positions are the first and the last, and the receiver accepts them |
| `BlockEncodings.EncodedIndex` | src/blockencodings.cpp:31-36 | short id i belongs to slot i + 1 |
| `BlockEncodings.SlotsAreGenuine` | src/blockencodings.cpp:57-178 | without collisions every filled slot holds the own transaction of the block |
| `BlockEncodings.CompletedIsBlock` | src/blockencodings.cpp:197-205 | filling in what lacks rebuilds the block |
| `BlockEncodings.Relay` | src/blockencodings.cpp:19-233 | a block sent compactly and completed with what the receiver lacks comes back as it was, and is accepted if and only if the check of the block finds it sound |
| `Digits.MulAdd` | src/base58.cpp:100-113 | in place, digits times a factor plus a digit, with an exact length and no carry left over |
| `Base58.EncodeFits` | src/base58.cpp:96-98 | 138/100 of the bytes plus one is always room enough |
| `Base58.DecodeFits` | src/base58.cpp:51-53 | 733/1000 of the characters plus one is always room enough |
| `Base58.DigitSymbol` | src/base58.cpp:17-36 | the table of values is the inverse of the alphabet, over all characters |
| `Base58.SymbolTable` | src/base58.cpp:17-18 | the alphabet written out |
| `Base58.IsSpace` | src/util/strencodings.h:96-98 | the blank and the codes 9 to 13 |
| `Base58.ConvertBytes` | src/base58.cpp:99-113 | the base-58 digits of the number of the bytes; the assertion on the carry holds |
| `Base58.EncodeBase58` | src/base58.cpp:87-125 | the leading zeroes and the base-58 notation of the rest |
| `Base58.ConvertWord` | src/base58.cpp:56-71 | accepts if and only if all characters are digits and the result is not too long; the assertion on the carry holds |
| `Base58.DecodeBase58` | src/base58.cpp:38-85 | the decoding of any string, with spaces around it, embedded end marks, wrong characters and too long results |
| `Base58.DecodeEncoded` | src/base58.cpp:38-125 | decoding an encoding gives the bytes, for all bytes not above the limit |
| `Base58.EncodeDecoded` | src/base58.cpp:38-125 | encoding what any string decodes to gives the string without what surrounds it, and that is nothing but spaces |
| `Bech32.FoldIn` | src/bech32.cpp:91-96 | adds the constants selected by the group shifted out |
| `Bech32.Update` | src/bech32.cpp:85-96 | one step of the register |
| `Bech32.StepLinear` | src/bech32.cpp:85-96 | the step is linear |
| `Bech32.StepInjective` | src/bech32.cpp:85-96 | the step forgets no difference, because the lowest group of the generator is a unit |
| `Bech32.PolyMod` | src/bech32.cpp:42-99 | the run of the register over all five-bit values |
| `Bech32Field.TimesCommutes` | src/bech32.cpp:57-63 | products of field elements, as polynomials in a modulo a^5 + a^3 + 1, commute |
| `Bech32Field.TimesAssociates` | src/bech32.cpp:57-63 | and associate |
| `Bech32Field.TimesDistributes` | src/bech32.cpp:57-63 | and distribute over addition, which is exclusive or |
| `Bech32Field.NoZeroDivisors` | src/bech32.cpp:57-63 | and are zero only if a factor is |
| `Bech32Field.WordsAreMultiples` | src/bech32.cpp:92-96 | each of the five constants is the generator without its leading term times the power of a for its bit |
| `Bech32Field.StepIsReduction` | src/bech32.cpp:70-96 | one step is the register times x, plus the input, reduced by the generator times the coefficient that overflows |
| `Bech32Field.RunDivides` | src/bech32.cpp:65-69 | whatever runs through the register leaves its remainder there |
| `Bech32Field.ChecksumIsRemainder` | src/bech32.cpp:44-51 | the checksum is the remainder of the values, behind a leading one, modulo the generator |
| `Bech32Field.RemainderUnique` | src/bech32.cpp:49-51 | quotient and remainder are determined |
| `Bech32Shortest.SymbolTable` | src/bech32.cpp:19 | the alphabet written out |
| `Bech32Shortest.ShortestBech32` | src/test/bech32_tests.cpp:16-18 | the shortest Bech32 string, computed |
| `Bech32Shortest.ShortestBech32m` | src/test/bech32_tests.cpp:35-37 | and the shortest Bech32m string |
| `Bech32.LastSix` | src/bech32.cpp:138-140 | the last six values enter the checksum as they are |
| `Bech32.BurstDetected` | src/bech32.cpp:42-99 | at any length, a change within six neighbouring values changes the checksum |
| `Bech32.OneChangeDetected` | src/bech32.cpp:123-133 | at any length, changing one data value never verifies under the same encoding |
| `Fields.ThreePlacesEmpty` | src/bech32.cpp:51-53 | in any field of characteristic two: a polynomial with three terms that vanishes at a root and its products by one and two factors of an element whose powers between the places differ from one is zero |
| `Fields.ExtensionIsField` | src/bech32.cpp:51-53 | pairs over such a field form one again when x * x + x + 1 has no root |
| `Bech32Pairs.NoSmallerPower` | src/bech32.cpp:51-53 | the element ALPHA of the field with 1024 elements has order 1023 |
| `Bech32Pairs.ThreeRoots` | src/bech32.cpp:49-53 | the generator has three roots there, each the one before times ALPHA |
| `Bech32Code.BaseIsField` | src/bech32.cpp:57-63 | the field with 32 elements by its bits |
| `Bech32Code.RunAtRoot` | src/bech32.cpp:65-69 | at every root of the generator the register and the values read have one value |
| `Bech32Code.ThreeChangesDetected` | src/bech32.cpp:51-52 | values that differ in up to three places within a window of 1023 have different checksums |
| `Bech32Code.ThreeCharactersDetected` | src/bech32.cpp:51-52 | so of two strings with one human-readable part that differ in up to three characters within such a window only one is an encoding |
| `Bech32Code.ThreeCharactersRefused` | src/bech32.cpp:51-52 | and such a change to a string that decodes never decodes as the same encoding of something else |
| `Bech32.ExpandHRP` | src/bech32.cpp:107-120 | high bits, zero, low bits |
| `Bech32.Unpack` | src/bech32.cpp:141-145 | the six groups from the top |
| `Bech32.CreateChecksum` | src/bech32.cpp:135-147 | six values that make the checksum the constant of the encoding |
| `Bech32.ChecksumUnique` | src/bech32.cpp:135-147 | and the only such values |
| `Bech32.ValueSymbol` | src/bech32.cpp:16-31 | the reverse table is the inverse of the alphabet |
| `Bech32.Encode` | src/bech32.cpp:151-165 | the string is the encoding of the parts |
| `Bech32.CheckCase` | src/bech32.cpp:169-176 | printable and not of mixed case |
| `Bech32.RFind` | src/bech32.cpp:177 | the last separator, or none |
| `Bech32.ReadValues` | src/bech32.cpp:181-190 | succeeds if and only if all characters are in the alphabet |
| `Bech32.VerifyChecksum` | src/bech32.cpp:122-133 | which encoding, if any, the checksum belongs to |
| `Bech32.Decode` | src/bech32.cpp:167-198 | returns a result if and only if the string is a valid encoding of something, and then that |
| `Bech32.EncodingDecodes` | src/bech32.cpp:151-198 | an encoding of a printable, non-empty, lower-case prefix decodes to its parts |
| `Bech32.DecodingUnique` | src/bech32.cpp:167-198 | a string decodes to one result at most |
| `Bech32.DecodingEncodes` | src/bech32.cpp:151-198 | what a string decodes to encodes to the string in lower case |
| `Bech32.EncodingUnique` | src/bech32.cpp:151-165 | there is one encoding of given parts |
| `Bech32.RoundTrip` | src/bech32.cpp:151-198 | decoding an encoding returns encoding, prefix and data, for all data within the length rule |

## Left out

- Update in place, in part: some loops over fields of an object (`Coins.BatchWrite`, `CuckooCache.Displace`, `AddrMan.Gather`, the package loops of `Miner`) are methods on the values of those fields, and the method of the object assigns the result; the fields never alias in the source.
- MWEB coin views, MWEB mining internals and HogEx construction; MWEB weight and the answer of the MWEB miner are inputs.
- `SetBackend`, `HaveCoin` and `AccessCoin` as calls of their own, and the best-block hash of a cache, which is an argument of its flush.
- The size of a database batch: after which entries it is written is an arbitrary answer.
- The contents of files that cannot be read; MWEB state, which is undone and replayed beside the coins.
- Coins: caches are levels of one stack object; heap sizes of scripts are those of one 64-bit allocator.
- Replay: blocks on both branches were connected, so they fit the coins before them; that they overwrite no unspent coin is checked by `ConnectBlock` up to the height of BIP 34 and taken for granted above it. `Replay.OverwritesAreLost` says that this is what undoing needs.
- Address selection (`Select_`, `GetChance`): random, with floating point.
- `Clear` in the middle of a run of the address manager: it does not clear the collision set.
- AddrMan.ValidPassesCheck: code -16 concerns the key and is not claimed; -1, -6 and -8 concern times and are claimed by AddrMan.Run.
- AddrMan.Manager.ResolveCollisions: the order of the set is arbitrary.
- AddrMan: the bucket arrays are maps from slots to ids, services are sets of bit numbers, and `nIdCount` does not wrap.
- AddrManFile.Unserialize: only for files in which no two records have one address, which holds of every file that `Serialize` writes; the byte format is left out, so the counts of a stream are those of its lists, and so is the bucket count of format 0.
- `CCheckQueueControl` and interruption of worker threads.
- Miner.SelectPackages: rates are compared exactly, without the rounding of floating point.
- Miner: coinbase construction, block templates and the fee and sigop lists beside `vtx`.
- `CMerkleBlock`, bloom filter matching and the non-rolling `CBloomFilter`.
- CuckooCache.Cache.constructor: the depth limit, a floating-point logarithm, is a parameter.
- Concurrent erasing in the cuckoo cache.
- ArithUint256: `--`, bitwise operators, hexadecimal and floating-point conversion; `|` of disjoint words in `GetLow64` is a sum.
- `GetBlockProofEquivalentTime`, `FindEarliestAtLeast`, `Next`, block status flags; heights do not overflow.
- AuxPow: `initAuxPow`, which stores the minimal proof in a header, and serialization; proof of work itself.
- Bloom.RollingBloomFilter.constructor: the sizes computed in floating point are parameters, and a filter needs at least one bit and one element.
- False-positive rates.
- BlockEncodings.PartiallyDownloadedBlock.InitData: `extra_count` is a log statistic and left out; positions above 65535 do not wrap, since reading the message refuses them.
- BlockEncodings.PartiallyDownloadedBlock.FillBlock: what the check of the block finds is an argument.
- Base58Check and address encoding on top of Base58 and Bech32.
- Bech32Code.ThreeChangesDetected: that four changes within 89 characters are detected as well was found by search and is not claimed.
- SHA-256, SipHash, MurmurHash, scrypt and secp256k1.
- Networking, RPC, storage, wallets, consensus parameters and start-up: mostly input and output.
