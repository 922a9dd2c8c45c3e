/** The UTXO cache hierarchy (src/coins.cpp, src/coins.h): any number of caches stacked
    on a database, each holding a map of entries with DIRTY and FRESH flags.

    `View()` is what a user of a cache can see: the unspent coins.  `Valid()` is the
    meaning of the two flags, for this cache and every cache below it. */
module Coins {

  datatype OutPoint = OutPoint(hash: nat, n: nat)

  datatype TxOut = TxOut(nValue: int, scriptPubKey: seq<bv8>)

  const NULL_OUT := TxOut(-1, [])
  const OP_RETURN: bv8 := 0x6a
  const MAX_SCRIPT_SIZE := 10000
  // Scripts up to this length are stored inside the script object itself.
  const DIRECT_SCRIPT_SIZE := 28

  datatype Coin = Coin(out: TxOut, fCoinBase: bool, nHeight: nat, fPegout: bool) {
    predicate IsSpent() {
      out.nValue == -1
    }

    predicate IsUnspendable() {
      || (|out.scriptPubKey| > 0 && out.scriptPubKey[0] == OP_RETURN)
      || |out.scriptPubKey| > MAX_SCRIPT_SIZE
    }

    /** Heap memory of the script: a block of whole sixteen bytes with room for a header, as on a
        64-bit libc. */
    function DynamicMemoryUsage(): (r: nat)
      ensures |out.scriptPubKey| <= 28 ==> r == 0
      ensures |out.scriptPubKey| > 28 ==> r % 16 == 0 && |out.scriptPubKey| + 16 <= r < |out.scriptPubKey| + 32
    {
      if |out.scriptPubKey| <= DIRECT_SCRIPT_SIZE then 0 else (|out.scriptPubKey| + 31) / 16 * 16
    }
  }

  /** A script that can succeed: it does not begin with OP_RETURN and is not too long to be run. */
  ghost predicate Runnable(script: seq<bv8>) {
    |script| <= 10000 && (script == [] || script[0] != 0x6a)
  }

  ghost predicate AllRunnable(u: Utxo) {
    forall o | o in u :: Runnable(u[o].out.scriptPubKey)
  }

  /** The state Coin::Clear leaves behind. */
  const CLEARED := Coin(NULL_OUT, false, 0, false)

  datatype Entry = Entry(coin: Coin, isDirty: bool, isFresh: bool)

  type CoinsMap = map<OutPoint, Entry>
  type Utxo = map<OutPoint, Coin>

  /** The unspent coins seen through `entries` laid over `below`. */
  ghost function Overlay(below: Utxo, entries: CoinsMap): (u: Utxo) {
    map o | o in below.Keys + entries.Keys && (o in entries ==> !entries[o].coin.IsSpent())
      :: if o in entries then entries[o].coin else below[o]
  }

  /** What the flags of an entry promise about the view below it.  Only four of the
      eight flag states remain: FRESH entries are always DIRTY and unspent. */
  ghost predicate EntryOk(o: OutPoint, e: Entry, below: Utxo) {
    && (e.coin.IsSpent() ==> e.coin == CLEARED)
    && (e.isFresh ==> e.isDirty && !e.coin.IsSpent() && o !in below)
    && (!e.isDirty ==> o in below && below[o] == e.coin && !e.coin.IsSpent())
  }

  ghost predicate EntriesOk(entries: CoinsMap, below: Utxo) {
    forall o | o in entries :: EntryOk(o, entries[o], below)
  }

  ghost predicate AllUnspent(u: Utxo) {
    forall o | o in u :: !u[o].IsSpent()
  }

  // ---------- memory accounting ----------

  ghost function TotalUsage(entries: CoinsMap): nat {
    if entries == map[] then 0 else
      var o :| o in entries;
      entries[o].coin.DynamicMemoryUsage() + TotalUsage(entries - {o})
  }

  lemma {:induction false} UsageSplit(entries: CoinsMap, o: OutPoint)
    requires o in entries
    ensures TotalUsage(entries) == entries[o].coin.DynamicMemoryUsage() + TotalUsage(entries - {o})
    decreases |entries|
  {
    var p :| p in entries && TotalUsage(entries) == entries[p].coin.DynamicMemoryUsage() + TotalUsage(entries - {p});
    if p != o {
      UsageSplit(entries - {p}, o);
      UsageSplit(entries - {o}, p);
      assert entries - {p} - {o} == entries - {o} - {p};
    }
  }

  lemma UsageUpdate(entries: CoinsMap, o: OutPoint, e: Entry)
    ensures TotalUsage(entries[o := e]) ==
            TotalUsage(entries) + e.coin.DynamicMemoryUsage() -
            (if o in entries then entries[o].coin.DynamicMemoryUsage() else 0)
  {
    UsageSplit(entries[o := e], o);
    assert entries[o := e] - {o} == entries - {o};
    if o in entries { UsageSplit(entries, o); } else { assert entries - {o} == entries; }
  }

  /** Caching an unspent coin of the view below, unflagged, changes nothing visible. */
  lemma CachingKeepsView(below: Utxo, entries: CoinsMap, o: OutPoint, e: Entry)
    requires EntriesOk(entries, below)
    requires o !in entries && EntryOk(o, e, below) && !e.isDirty
    ensures EntriesOk(entries[o := e], below)
    ensures Overlay(below, entries[o := e]) == Overlay(below, entries)
    ensures TotalUsage(entries[o := e]) == TotalUsage(entries) + e.coin.DynamicMemoryUsage()
  {
    UsageUpdate(entries, o, e);
  }

  // ---------- CCoinsViewDB::BatchWrite ----------

  /** The unspent coins after the DIRTY entries of `entries` have been written over `below`. */
  ghost function Written(below: Utxo, entries: CoinsMap): (u: Utxo) {
    map o | o in below.Keys + entries.Keys && (o in entries && entries[o].isDirty ==> !entries[o].coin.IsSpent())
              && (o in entries && !entries[o].isDirty ==> o in below)
      :: if o in entries && entries[o].isDirty then entries[o].coin else below[o]
  }

  /** When the flags are right, writing the DIRTY entries writes all there is to see. */
  lemma DirtyIsEnough(below: Utxo, entries: CoinsMap)
    requires EntriesOk(entries, below)
    ensures Written(below, entries) == Overlay(below, entries)
  {
  }

  ghost predicate SameAt(o: OutPoint, u: Utxo, v: Utxo) {
    (o in u <==> o in v) && (o in u ==> u[o] == v[o])
  }

  /** Every coin of m is as in u or as in v. */
  ghost predicate Mixed(m: Utxo, u: Utxo, v: Utxo) {
    forall o :: SameAt(o, m, u) || SameAt(o, m, v)
  }

  // Blocks are named by numbers; this is the null hash.
  const NO_BLOCK := -1

  /** The coin database: the coins, the best block (NO_BLOCK when not recorded) and the head blocks
      of an unfinished transition (empty when not recorded). */
  datatype Disk = Disk(coins: Utxo, best: int, heads: seq<int>)

  datatype Record =
    | EraseBest
    | PutBest(block: int)
    | EraseHeads
    | PutHeads(blocks: seq<int>)
    | EraseCoin(o: OutPoint)
    | PutCoin(o: OutPoint, coin: Coin)

  function Put(d: Disk, r: Record): Disk {
    match r
    case EraseBest => d.(best := NO_BLOCK)
    case PutBest(block) => d.(best := block)
    case EraseHeads => d.(heads := [])
    case PutHeads(blocks) => d.(heads := blocks)
    case EraseCoin(o) => d.(coins := d.coins - {o})
    case PutCoin(o, coin) => d.(coins := d.coins[o := coin])
  }

  /** The database after a batch, which is written completely or not at all. */
  function PutAll(d: Disk, batch: seq<Record>): Disk {
    if batch == [] then d else Put(PutAll(d, batch[..|batch| - 1]), batch[|batch| - 1])
  }

  lemma PutNext(d: Disk, batch: seq<Record>, r: Record)
    ensures PutAll(d, batch + [r]) == Put(PutAll(d, batch), r)
  {
    assert (batch + [r])[..|batch|] == batch;
  }

  /** The tip that a transition starts from: of a database in the middle of one, its old head. */
  function OldTip(d: Disk): int {
    if d.best == NO_BLOCK && |d.heads| == 2 then d.heads[1] else d.best
  }

  /** What BatchWrite asserts: an unfinished transition can only be continued to the same block. */
  ghost predicate MayWrite(d: Disk, hashBlock: int) {
    hashBlock != NO_BLOCK && (d.best == NO_BLOCK && |d.heads| == 2 ==> d.heads[0] == hashBlock)
  }

  /** A database between two batches: marked with both tips, every coin old or new. */
  ghost predicate Between(d: Disk, before: Disk, after: Utxo, hashBlock: int) {
    d.best == NO_BLOCK && d.heads == [hashBlock, OldTip(before)] && Mixed(d.coins, before.coins, after)
  }

  /** What a crash can leave behind: the database as it was, one between two batches, or the finished one. */
  ghost predicate IsTrail(trail: seq<Disk>, before: Disk, after: Utxo, hashBlock: int) {
    && |trail| >= 2 && trail[0] == before && trail[|trail| - 1] == Disk(after, hashBlock, [])
    && forall i | 0 < i < |trail| - 1 :: Between(trail[i], before, after, hashBlock)
  }

  /** The coins of `done` are written and no others. */
  ghost predicate WrittenSoFar(coins: Utxo, before: Utxo, entries: CoinsMap, rest: CoinsMap) {
    && (forall o | o in rest :: SameAt(o, coins, before))
    && (forall o | o !in rest :: SameAt(o, coins, Written(before, entries)))
  }

  // the entry's record, if it is DIRTY
  method AppendCoin(batch: seq<Record>, o: OutPoint, e: Entry, ghost d: Disk) returns (batch': seq<Record>)
    ensures PutAll(d, batch') == (if !e.isDirty then PutAll(d, batch)
              else Put(PutAll(d, batch), if e.coin.IsSpent() then EraseCoin(o) else PutCoin(o, e.coin)))
  {
    batch' := batch;
    if e.isDirty {
      var r := if e.coin.IsSpent() then EraseCoin(o) else PutCoin(o, e.coin);
      PutNext(d, batch, r);
      batch' := batch + [r];
    }
  }

  lemma WrittenNext(coins: Utxo, coins': Utxo, before: Utxo, entries: CoinsMap, rest: CoinsMap, o: OutPoint)
    requires rest.Keys <= entries.Keys && o in rest && rest[o] == entries[o]
    requires WrittenSoFar(coins, before, entries, rest)
    requires coins' == if !rest[o].isDirty then coins else if rest[o].coin.IsSpent() then coins - {o} else coins[o := rest[o].coin]
    ensures WrittenSoFar(coins', before, entries, rest - {o})
  {
  }

  lemma AllWritten(coins: Utxo, before: Utxo, entries: CoinsMap, rest: CoinsMap)
    requires WrittenSoFar(coins, before, entries, rest) && rest == map[]
    ensures coins == Written(before, entries)
  {
    assert forall o :: SameAt(o, coins, Written(before, entries));
    assert coins.Keys == Written(before, entries).Keys;
  }

  lemma PutFirst(d: Disk, hashBlock: int, oldTip: int)
    ensures PutAll(d, [EraseBest, PutHeads([hashBlock, oldTip])]) == Disk(d.coins, NO_BLOCK, [hashBlock, oldTip])
  {
    PutNext(d, [], EraseBest);
    PutNext(d, [EraseBest], PutHeads([hashBlock, oldTip]));
    assert [EraseBest, PutHeads([hashBlock, oldTip])] == [EraseBest] + [PutHeads([hashBlock, oldTip])];
  }

  // the last batch clears the mark and records the new tip
  method PutLast(d: Disk, batch: seq<Record>, hashBlock: int) returns (r: Disk)
    ensures r == Disk(PutAll(d, batch).coins, hashBlock, [])
  {
    PutNext(d, batch, EraseHeads);
    PutNext(d, batch + [EraseHeads], PutBest(hashBlock));
    r := PutAll(d, batch + [EraseHeads] + [PutBest(hashBlock)]);
  }

  // CCoinsViewDB::BatchWrite; `full(k)` says whether the batch has grown beyond its limit after k entries
  method WriteToDb(before: Disk, mapCoins: CoinsMap, hashBlock: int, full: nat -> bool) returns (disk: Disk, trail: seq<Disk>)
    requires MayWrite(before, hashBlock)
    ensures disk == Disk(Written(before.coins, mapCoins), hashBlock, [])
    ensures IsTrail(trail, before, disk.coins, hashBlock)
  {
    ghost var after := Written(before.coins, mapCoins);
    disk, trail := before, [before];
    var batch := [EraseBest, PutHeads([hashBlock, OldTip(before)])];
    PutFirst(disk, hashBlock, OldTip(before));
    var rest, count: nat := mapCoins, 0;
    while rest != map[]
      invariant rest.Keys <= mapCoins.Keys && forall o | o in rest :: rest[o] == mapCoins[o]
      invariant PutAll(disk, batch).best == NO_BLOCK && PutAll(disk, batch).heads == [hashBlock, OldTip(before)]
      invariant WrittenSoFar(PutAll(disk, batch).coins, before.coins, mapCoins, rest)
      invariant |trail| >= 1 && trail[0] == before && trail[|trail| - 1] == disk
      invariant forall i | 0 < i < |trail| :: Between(trail[i], before, after, hashBlock)
      decreases rest.Keys
    {
      var o :| o in rest;
      ghost var pending := PutAll(disk, batch);
      batch := AppendCoin(batch, o, rest[o], disk);
      WrittenNext(pending.coins, PutAll(disk, batch).coins, before.coins, mapCoins, rest, o);
      count := count + 1;
      rest := rest - {o};
      if full(count) {
        disk := PutAll(disk, batch);
        trail, batch := trail + [disk], [];
        assert Between(disk, before, after, hashBlock);
      }
    }
    AllWritten(PutAll(disk, batch).coins, before.coins, mapCoins, rest);
    disk := PutLast(disk, batch, hashBlock);
    trail := trail + [disk];
  }

  // ---------- writing one cache into the cache below ----------

  datatype Slot = Absent | Present(e: Entry)

  function SlotOf(m: CoinsMap, o: OutPoint): Slot {
    if o in m then Present(m[o]) else Absent
  }

  /** The condition under which BatchWrite throws: a coin marked FRESH by the cache above
      exists, unspent, in this cache. */
  predicate Misapplied(ours: Slot, theirs: Entry) {
    theirs.isDirty && theirs.isFresh && ours.Present? && !ours.e.coin.IsSpent()
  }

  /** What becomes of our entry when the entry `theirs` is written into it. */
  function Merge(ours: Slot, theirs: Entry): Slot {
    if !theirs.isDirty then ours
    else if ours.Absent? then
      if theirs.isFresh && theirs.coin.IsSpent() then Absent else Present(Entry(theirs.coin, true, theirs.isFresh))
    else if ours.e.isFresh && theirs.coin.IsSpent() then Absent
    else Present(Entry(theirs.coin, true, ours.e.isFresh))
  }

  /** `ours` with the entries of `theirs` at the keys `done` merged in. */
  ghost predicate IsMerge(before: CoinsMap, theirs: CoinsMap, done: set<OutPoint>, after: CoinsMap) {
    forall o :: SlotOf(after, o) ==
      if o in done && o in theirs then Merge(SlotOf(before, o), theirs[o]) else SlotOf(before, o)
  }

  /** Writing an upper cache into a lower one keeps the meaning of every flag in the lower
      cache and makes it show exactly what the upper cache showed. */
  lemma MergeShowsUpper(below: Utxo, ours: CoinsMap, theirs: CoinsMap, after: CoinsMap)
    requires EntriesOk(ours, below) && EntriesOk(theirs, Overlay(below, ours))
    requires IsMerge(ours, theirs, theirs.Keys, after)
    ensures EntriesOk(after, below)
    ensures Overlay(below, after) == Overlay(Overlay(below, ours), theirs)
  {
    var view := Overlay(below, ours);
    forall o
      ensures o in after ==> EntryOk(o, after[o], below)
      ensures o in Overlay(below, after) <==> o in Overlay(view, theirs)
      ensures o in Overlay(below, after) ==> Overlay(below, after)[o] == Overlay(view, theirs)[o]
    {
      assert SlotOf(after, o) == if o in theirs then Merge(SlotOf(ours, o), theirs[o]) else SlotOf(ours, o);
      if o in theirs { assert EntryOk(o, theirs[o], view); }
      if o in ours { assert EntryOk(o, ours[o], below); }
    }
  }

  // CCoinsViewCache::BatchWrite: writes the entries of the cache above into this one.
  method BatchWrite(cacheCoins: CoinsMap, usage: int, mapCoins: CoinsMap)
    returns (threw: bool, coins: CoinsMap, coinsUsage: int)
    requires usage == TotalUsage(cacheCoins)
    ensures threw <==> exists o | o in mapCoins :: Misapplied(SlotOf(cacheCoins, o), mapCoins[o])
    ensures !threw ==> IsMerge(cacheCoins, mapCoins, mapCoins.Keys, coins)
    ensures coinsUsage == TotalUsage(coins)
  {
    coins, coinsUsage, threw := cacheCoins, usage, false;
    var rest := mapCoins;
    while rest != map[]
      invariant rest.Keys <= mapCoins.Keys && forall o | o in rest :: rest[o] == mapCoins[o]
      invariant IsMerge(cacheCoins, mapCoins, mapCoins.Keys - rest.Keys, coins)
      invariant coinsUsage == TotalUsage(coins)
      invariant forall o | o in mapCoins && o !in rest :: !Misapplied(SlotOf(cacheCoins, o), mapCoins[o])
      decreases rest.Keys
    {
      var o :| o in rest;
      var it := rest[o];
      assert SlotOf(coins, o) == SlotOf(cacheCoins, o);
      if it.isDirty {
        if o !in coins {
          if !(it.isFresh && it.coin.IsSpent()) {
            UsageUpdate(coins, o, Entry(it.coin, true, it.isFresh));
            coins := coins[o := Entry(it.coin, true, it.isFresh)];
            coinsUsage := coinsUsage + it.coin.DynamicMemoryUsage();
          }
        } else {
          var us := coins[o];
          if it.isFresh && !us.coin.IsSpent() {
            return true, coins, coinsUsage;
          }
          if us.isFresh && it.coin.IsSpent() {
            UsageSplit(coins, o);
            coinsUsage := coinsUsage - us.coin.DynamicMemoryUsage();
            coins := coins - {o};
          } else {
            UsageUpdate(coins, o, Entry(it.coin, true, us.isFresh));
            coinsUsage := coinsUsage - us.coin.DynamicMemoryUsage() + it.coin.DynamicMemoryUsage();
            coins := coins[o := Entry(it.coin, true, us.isFresh)];
          }
        }
      }
      rest := rest - {o};
    }
  }

  // CCoinsViewCache::AddCoin on the fields of one cache resting on the view `below`.
  method AddToCache(cacheCoins: CoinsMap, usage: int, o: OutPoint, coin: Coin, possibleOverwrite: bool, ghost below: Utxo)
    returns (threw: bool, coins: CoinsMap, coinsUsage: int)
    requires EntriesOk(cacheCoins, below) && usage == TotalUsage(cacheCoins) && !coin.IsSpent()
    ensures threw <==> Runnable(coin.out.scriptPubKey) && !possibleOverwrite && o in cacheCoins && !cacheCoins[o].coin.IsSpent()
    ensures threw || !Runnable(coin.out.scriptPubKey) ==> coins == cacheCoins
    ensures !threw && Runnable(coin.out.scriptPubKey) ==> Overlay(below, coins) == Overlay(below, cacheCoins)[o := coin]
    ensures EntriesOk(coins, below) && coinsUsage == TotalUsage(coins) <==>
            || !Runnable(coin.out.scriptPubKey) || possibleOverwrite || o !in Overlay(below, cacheCoins)
            || (threw && cacheCoins[o].coin.DynamicMemoryUsage() == 0)
  {
    threw, coins, coinsUsage := false, cacheCoins, usage;
    if coin.IsUnspendable() {
      return;
    }
    var inserted := o !in coins;
    var it := if inserted then Entry(CLEARED, false, false) else coins[o];
    assert !inserted ==> EntryOk(o, it, below);
    var markFresh := false;
    if !inserted {
      coinsUsage := coinsUsage - it.coin.DynamicMemoryUsage();
    }
    if !possibleOverwrite {
      if !it.coin.IsSpent() {
        threw := true;
        return;
      }
      markFresh := !it.isDirty;
    }
    var e := Entry(coin, true, it.isFresh || markFresh);
    AddedEntry(below, coins, o, e);
    coins := coins[o := e];
    coinsUsage := coinsUsage + coin.DynamicMemoryUsage();
  }

  // ---------- the stack of caches ----------

  ghost predicate CacheOk(below: Utxo, entries: CoinsMap, usage: int, view: Utxo) {
    EntriesOk(entries, below) && usage == TotalUsage(entries) && view == Overlay(below, entries)
  }

  ghost predicate StackOk(db: Utxo, caches: seq<CoinsMap>, usage: seq<int>, views: seq<Utxo>) {
    && |usage| == |caches| && |views| == |caches| + 1
    && views[0] == db && AllUnspent(db)
    && forall k | 0 <= k < |caches| :: CacheOk(views[k], caches[k], usage[k], views[k + 1])
  }

  lemma UncachedOk(below: Utxo, entries: CoinsMap, usage: int, view: Utxo, o: OutPoint)
    requires CacheOk(below, entries, usage, view) && o in entries && !entries[o].isDirty
    ensures CacheOk(below, entries - {o}, usage - entries[o].coin.DynamicMemoryUsage(), view)
  {
    UsageSplit(entries, o);
    assert EntryOk(o, entries[o], below);
    assert Overlay(below, entries - {o}) == view;
  }

  /** A stack of CCoinsViewCache objects on a database: `caches[k]` and `usage[k]` are the
      `cacheCoins` and `cachedCoinsUsage` of the cache whose base is `caches[k - 1]`, or the
      database for k = 0. */
  class CoinsViewStack {
    var disk: Disk
    var caches: seq<CoinsMap>
    var usage: seq<int>
    // views[0] is what the database shows and views[k + 1] what caches[k] shows.
    ghost var views: seq<Utxo>

    ghost predicate Valid()
      reads this
    {
      StackOk(disk.coins, caches, usage, views)
    }

    constructor (init: Disk)
      requires AllUnspent(init.coins)
      ensures Valid() && disk == init && views == [init.coins] && caches == []
    {
      disk, caches, usage, views := init, [], [], [init.coins];
    }

    ghost function Top(): CoinsMap
      requires |caches| > 0
      reads this
    {
      caches[|caches| - 1]
    }

    // Puts a new, empty cache on top.
    method Push()
      requires Valid()
      modifies this
      ensures Valid() && disk == old(disk) && views == old(views) + [old(views)[|old(caches)|]]
    {
      assert Overlay(views[|caches|], map[]) == views[|caches|];
      views := views + [views[|caches|]];
      caches, usage := caches + [map[]], usage + [0];
    }

    // Destroys the top cache without flushing it: its changes are forgotten.
    method Pop()
      requires Valid() && |caches| > 0
      modifies this
      ensures Valid() && disk == old(disk) && views == old(views)[..|old(caches)|]
    {
      views := views[..|caches|];
      caches, usage := caches[..|caches| - 1], usage[..|caches| - 1];
    }

    // Looks an outpoint up in cache k, pulling an unspent coin into that cache and into
    // every cache below that did not hold it.
    method FetchCoin(k: nat, o: OutPoint) returns (found: bool)
      requires Valid() && k < |caches|
      modifies this
      ensures Valid() && disk == old(disk) && views == old(views) && |caches| == |old(caches)|
      ensures forall j | k < j < |caches| :: caches[j] == old(caches)[j]
      ensures found == (o in caches[k])
      ensures found <==> o in old(caches)[k] || o in views[k + 1]
      decreases k, 0
    {
      if o in caches[k] {
        return true;
      }
      var unspent, tmp := GetCoin(k as int - 1, o);
      if !unspent {
        return false;
      }
      assert CacheOk(views[k], caches[k], usage[k], views[k + 1]);
      CachingKeepsView(views[k], caches[k], o, Entry(tmp, false, tmp.IsSpent()));
      caches := caches[k := caches[k][o := Entry(tmp, false, tmp.IsSpent())]];
      usage := usage[k := usage[k] + tmp.DynamicMemoryUsage()];
      found := true;
    }

    // Reads through cache k, or from the database for k = -1.
    method GetCoin(k: int, o: OutPoint) returns (unspent: bool, coin: Coin)
      requires Valid() && -1 <= k < |caches|
      modifies this
      ensures Valid() && disk == old(disk) && views == old(views) && |caches| == |old(caches)|
      ensures forall j | k < j < |caches| :: caches[j] == old(caches)[j]
      ensures unspent <==> o in views[k + 1]
      ensures unspent ==> coin == views[k + 1][o] && !coin.IsSpent()
      decreases k, 1
    {
      unspent, coin := false, CLEARED;
      if k == -1 {
        if o in disk.coins {
          unspent, coin := true, disk.coins[o];
        }
      } else {
        var found := FetchCoin(k, o);
        if found {
          coin := caches[k][o].coin;
          unspent := !coin.IsSpent();
        }
      }
    }

    // Adds a coin to the top cache.
    method AddCoin(o: OutPoint, coin: Coin, possibleOverwrite: bool) returns (threw: bool)
      requires Valid() && |caches| > 0 && !coin.IsSpent()
      modifies this
      ensures disk == old(disk) && |caches| == |old(caches)|
      ensures views == if threw then old(views) else Added(old(views), o, coin)
      ensures threw <==> Runnable(coin.out.scriptPubKey) && !possibleOverwrite
                         && o in old(Top()) && !old(Top())[o].coin.IsSpent()
      ensures threw ==> caches == old(caches)
      ensures AddAllowed(old(views), o, coin, possibleOverwrite) ==> !threw
      // Breaking the promise always does damage, except when the call is refused and the
      // coin already there uses no heap memory.
      ensures Valid() <==> AddAllowed(old(views), o, coin, possibleOverwrite)
                           || (threw && old(Top())[o].coin.DynamicMemoryUsage() == 0)
    {
      var top := |caches| - 1;
      assert CacheOk(views[top], caches[top], usage[top], views[top + 1]);
      var coins, u;
      threw, coins, u := AddToCache(caches[top], usage[top], o, coin, possibleOverwrite, views[top]);
      caches, usage := caches[top := coins], usage[top := u];
      views := if threw then views else Added(views, o, coin);
      assert Valid() <==> CacheOk(views[top], caches[top], usage[top], views[top + 1]);
    }

    // Spends a coin in the top cache.
    method SpendCoin(o: OutPoint) returns (ret: bool, moveout: Coin)
      requires Valid() && |caches| > 0
      modifies this
      ensures Valid() && disk == old(disk) && |caches| == |old(caches)| && views == Spent(old(views), o)
      // A coin spent earlier in this cache and not yet flushed is reported as spent again.
      ensures ret <==> o in old(views)[|old(views)| - 1] || o in old(Top())
      ensures if o in old(views)[|old(views)| - 1] then moveout == old(views)[|old(views)| - 1][o] else moveout.IsSpent()
    {
      var top := |caches| - 1;
      ret := FetchCoin(top, o);
      if !ret {
        assert views[top + 1] - {o} == views[top + 1];
        return false, CLEARED;
      }
      assert CacheOk(views[top], caches[top], usage[top], views[top + 1]);
      SpentEntry(views[top], caches[top], o);
      var it := caches[top][o];
      moveout := it.coin;
      usage := usage[top := usage[top] - it.coin.DynamicMemoryUsage()];
      if it.isFresh {
        caches := caches[top := caches[top] - {o}];
      } else {
        caches := caches[top := caches[top][o := Entry(CLEARED, true, it.isFresh)]];
      }
      views := Spent(views, o);
    }

    // Drops an unmodified entry from cache k.
    method Uncache(k: nat, o: OutPoint)
      requires Valid() && k < |caches|
      modifies this
      ensures Valid() && disk == old(disk) && views == old(views) && |caches| == |old(caches)|
      ensures caches[k].Keys == old(caches)[k].Keys - (if o in old(caches)[k] && !old(caches)[k][o].isDirty && !old(caches)[k][o].isFresh then {o} else {})
    {
      if o in caches[k] && !caches[k][o].isDirty && !caches[k][o].isFresh {
        UncachedOk(views[k], caches[k], usage[k], views[k + 1], o);
        usage := usage[k := usage[k] - caches[k][o].coin.DynamicMemoryUsage()];
        caches := caches[k := caches[k] - {o}];
      }
    }

    // Writes cache k into the cache below it, or into the database, and empties it.
    method Flush(k: nat, hashBlock: int, full: nat -> bool) returns (threw: bool, trail: seq<Disk>)
      requires Valid() && k < |caches| && (k == 0 ==> MayWrite(disk, hashBlock))
      modifies this
      ensures !threw && Valid() && views == Flushed(old(views), k)
      ensures |caches| == |old(caches)| && caches[k] == map[] && usage[k] == 0
      ensures if k > 0 then disk == old(disk) && trail == [disk]
              else disk == Disk(old(views)[1], hashBlock, []) && IsTrail(trail, old(disk), old(views)[1], hashBlock)
    {
      FlushKeepsStack(disk.coins, caches, usage, views, k);
      threw, trail := false, [disk];
      if k == 0 {
        assert CacheOk(views[0], caches[0], usage[0], views[1]);
        DirtyIsEnough(views[0], caches[0]);
        disk, trail := WriteToDb(disk, caches[0], hashBlock, full);
      } else {
        assert CacheOk(views[k - 1], caches[k - 1], usage[k - 1], views[k]);
        var coins, u;
        threw, coins, u := BatchWrite(caches[k - 1], usage[k - 1], caches[k]);
        caches, usage := caches[k - 1 := coins], usage[k - 1 := u];
      }
      caches, usage := caches[k := map[]], usage[k := 0];
      views := Flushed(views, k);
    }
  }

  /** The promise AddCoin asks of its caller: without `possibleOverwrite` no unspent coin
      is visible through the top cache. */
  ghost predicate AddAllowed(views: seq<Utxo>, o: OutPoint, coin: Coin, possibleOverwrite: bool)
    requires views != []
  {
    !Runnable(coin.out.scriptPubKey) || possibleOverwrite || o !in views[|views| - 1]
  }

  ghost function Added(views: seq<Utxo>, o: OutPoint, coin: Coin): seq<Utxo>
    requires views != []
  {
    if Runnable(coin.out.scriptPubKey) then views[|views| - 1 := views[|views| - 1][o := coin]] else views
  }

  lemma AddedEntry(below: Utxo, entries: CoinsMap, o: OutPoint, e: Entry)
    requires EntriesOk(entries, below) && !e.coin.IsSpent()
    ensures Overlay(below, entries[o := e]) == Overlay(below, entries)[o := e.coin]
    ensures EntriesOk(entries[o := e], below) <==> EntryOk(o, e, below)
    ensures TotalUsage(entries[o := e]) == TotalUsage(entries) + e.coin.DynamicMemoryUsage()
            - (if o in entries then entries[o].coin.DynamicMemoryUsage() else 0)
  {
    UsageUpdate(entries, o, e);
    if EntriesOk(entries[o := e], below) {
      assert entries[o := e][o] == e;
    }
  }

  ghost function Spent(views: seq<Utxo>, o: OutPoint): seq<Utxo>
    requires views != []
  {
    views[|views| - 1 := views[|views| - 1] - {o}]
  }

  ghost function Flushed(views: seq<Utxo>, k: nat): seq<Utxo>
    requires k + 1 < |views|
  {
    views[k := views[k + 1]]
  }

  lemma SpentEntry(below: Utxo, entries: CoinsMap, o: OutPoint)
    requires EntriesOk(entries, below) && o in entries
    ensures CacheOk(below, AfterSpend(entries, o), TotalUsage(entries) - entries[o].coin.DynamicMemoryUsage(), Overlay(below, entries) - {o})
  {
    assert EntryOk(o, entries[o], below);
    var after := AfterSpend(entries, o);
    assert TotalUsage(after) == TotalUsage(entries) - entries[o].coin.DynamicMemoryUsage() by {
      UsageSplit(entries, o);
      UsageUpdate(entries, o, Entry(CLEARED, true, false));
    }
    SpentView(below, entries, o);
  }

  lemma SpentView(below: Utxo, entries: CoinsMap, o: OutPoint)
    requires EntriesOk(entries, below) && o in entries
    ensures Overlay(below, AfterSpend(entries, o)) == Overlay(below, entries) - {o}
  {
    assert EntryOk(o, entries[o], below);
    var after := AfterSpend(entries, o);
    forall p ensures SameAt(p, Overlay(below, after), Overlay(below, entries) - {o}) {
      if p != o { assert SlotOf(after, p) == SlotOf(entries, p); }
    }
    assert Overlay(below, after).Keys == (Overlay(below, entries) - {o}).Keys;
  }

  ghost function AfterSpend(entries: CoinsMap, o: OutPoint): CoinsMap
    requires o in entries
  {
    if entries[o].isFresh then entries - {o} else entries[o := Entry(CLEARED, true, false)]
  }

  lemma UnspentOverlay(below: Utxo, entries: CoinsMap)
    requires AllUnspent(below)
    ensures AllUnspent(Overlay(below, entries))
  {
  }

  /** The "FRESH flag misapplied" exception cannot be reached from valid flags. */
  lemma NeverMisapplied(below: Utxo, ours: CoinsMap, theirs: CoinsMap)
    requires EntriesOk(ours, below) && EntriesOk(theirs, Overlay(below, ours))
    ensures !exists o | o in theirs :: Misapplied(SlotOf(ours, o), theirs[o])
  {
    forall o | o in theirs ensures !Misapplied(SlotOf(ours, o), theirs[o]) {
      assert EntryOk(o, theirs[o], Overlay(below, ours));
    }
  }

  lemma FlushKeepsStack(db: Utxo, caches: seq<CoinsMap>, usage: seq<int>, views: seq<Utxo>, k: nat)
    requires StackOk(db, caches, usage, views) && k < |caches|
    ensures k == 0 ==>
              StackOk(Written(db, caches[0]), caches[0 := map[]], usage[0 := 0], Flushed(views, 0))
    ensures k > 0 ==>
              && (!exists o | o in caches[k] :: Misapplied(SlotOf(caches[k - 1], o), caches[k][o]))
              && forall coins | IsMerge(caches[k - 1], caches[k], caches[k].Keys, coins) ::
                   StackOk(db, caches[k - 1 := coins][k := map[]], usage[k - 1 := TotalUsage(coins)][k := 0], Flushed(views, k))
  {
    assert CacheOk(views[k], caches[k], usage[k], views[k + 1]);
    assert Overlay(views[k + 1], map[]) == views[k + 1];
    if k == 0 {
      DirtyIsEnough(views[0], caches[0]);
      UnspentOverlay(views[0], caches[0]);
    } else {
      assert CacheOk(views[k - 1], caches[k - 1], usage[k - 1], views[k]);
      NeverMisapplied(views[k - 1], caches[k - 1], caches[k]);
      forall coins | IsMerge(caches[k - 1], caches[k], caches[k].Keys, coins)
        ensures StackOk(db, caches[k - 1 := coins][k := map[]], usage[k - 1 := TotalUsage(coins)][k := 0], Flushed(views, k))
      {
        MergeShowsUpper(views[k - 1], caches[k - 1], caches[k], coins);
      }
    }
  }

  // ---------- runs ----------

  datatype Op =
    | Push
    | Pop
    | Add(o: OutPoint, coin: Coin, possibleOverwrite: bool)
    | Spend(o: OutPoint)
    | Get(k: nat, o: OutPoint)
    | Uncache(k: nat, o: OutPoint)
    | Flush(k: nat, hashBlock: int)

  /** The operations a caller may perform.  Coins are added and spent in the top cache;
      reading, uncaching and flushing may happen at any level. */
  ghost predicate Legal(op: Op, views: seq<Utxo>)
    requires views != []
  {
    match op
    case Push => true
    case Pop => |views| > 1
    case Add(o, coin, po) => |views| > 1 && !coin.IsSpent() && AddAllowed(views, o, coin, po)
    case Spend(_) => |views| > 1
    case Get(k, _) => k < |views| - 1
    case Uncache(k, _) => k < |views| - 1
    case Flush(k, hashBlock) => k < |views| - 1 && hashBlock != NO_BLOCK
  }

  /** The reference behaviour on one plain map per level. */
  ghost function Plain(op: Op, views: seq<Utxo>): (after: seq<Utxo>)
    requires views != [] && Legal(op, views)
    ensures after != []
  {
    match op
    case Push => views + [views[|views| - 1]]
    case Pop => views[..|views| - 1]
    case Add(o, coin, _) => Added(views, o, coin)
    case Spend(o) => Spent(views, o)
    case Get(_, _) => views
    case Uncache(_, _) => views
    case Flush(k, _) => Flushed(views, k)
  }

  ghost predicate LegalRun(ops: seq<Op>, views: seq<Utxo>)
    requires views != []
  {
    ops != [] ==> Legal(ops[0], views) && LegalRun(ops[1..], Plain(ops[0], views))
  }

  ghost function PlainRun(ops: seq<Op>, views: seq<Utxo>): (after: seq<Utxo>)
    requires views != [] && LegalRun(ops, views)
    ensures after != []
  {
    if ops == [] then views else PlainRun(ops[1..], Plain(ops[0], views))
  }

  /** No transition of the database is unfinished. */
  ghost predicate Settled(d: Disk) {
    |d.heads| != 2
  }

  method Step(stack: CoinsViewStack, op: Op, full: nat -> bool) returns (threw: bool)
    requires stack.Valid() && Legal(op, stack.views) && Settled(stack.disk)
    modifies stack
    ensures stack.Valid() && Settled(stack.disk) && !threw && stack.views == Plain(op, old(stack.views))
  {
    threw := false;
    match op
    case Push => stack.Push();
    case Pop => stack.Pop();
    case Add(o, coin, po) => threw := stack.AddCoin(o, coin, po);
    case Spend(o) => var _, _ := stack.SpendCoin(o);
    case Get(k, o) => var _, _ := stack.GetCoin(k, o);
    case Uncache(k, o) => stack.Uncache(k, o);
    case Flush(k, hashBlock) => var t, _ := stack.Flush(k, hashBlock, full); threw := t;
  }

  /** Every level shows only coins that can be spent. */
  ghost predicate OnlyRunnable(views: seq<Utxo>) {
    forall k | 0 <= k < |views| :: AllRunnable(views[k])
  }

  /** A coin that cannot be spent never becomes visible. */
  lemma {:induction false} StaysRunnable(ops: seq<Op>, views: seq<Utxo>)
    requires views != [] && LegalRun(ops, views) && OnlyRunnable(views)
    ensures OnlyRunnable(PlainRun(ops, views))
    decreases |ops|
  {
    if ops != [] {
      var next := Plain(ops[0], views);
      forall k | 0 <= k < |next| ensures AllRunnable(next[k]) {
        assert AllRunnable(views[|views| - 1]) && (k < |views| ==> AllRunnable(views[k]));
        if ops[0].Flush? && k == ops[0].k { assert AllRunnable(views[k + 1]); }
      }
      StaysRunnable(ops[1..], next);
    }
  }

  // Every legal run keeps the meaning of all flags, never throws, and shows at every
  // level what the plain maps show.
  method Run(stack: CoinsViewStack, ops: seq<Op>, full: nat -> bool) returns (threw: bool)
    requires stack.Valid() && LegalRun(ops, stack.views) && Settled(stack.disk)
    modifies stack
    ensures stack.Valid() && Settled(stack.disk) && !threw && stack.views == PlainRun(ops, old(stack.views))
    ensures OnlyRunnable(old(stack.views)) ==> OnlyRunnable(stack.views)
  {
    if OnlyRunnable(stack.views) { StaysRunnable(ops, stack.views); }
    threw := false;
    var rest := ops;
    while rest != []
      invariant stack.Valid() && Settled(stack.disk) && !threw
      invariant LegalRun(rest, stack.views) && PlainRun(rest, stack.views) == PlainRun(ops, old(stack.views))
      decreases |rest|
    {
      threw := Step(stack, rest[0], full);
      rest := rest[1..];
    }
  }

  /** Without discarding a cache, what is visible on top is one plain map to which the adds
      and spends have been applied, whatever was cached, uncached, flushed or stacked. */
  ghost function OneMap(ops: seq<Op>, m: Utxo): Utxo {
    if ops == [] then m else
      OneMap(ops[1..],
             match ops[0]
             case Add(o, coin, _) => if Runnable(coin.out.scriptPubKey) then m[o := coin] else m
             case Spend(o) => m - {o}
             case _ => m)
  }

  lemma {:induction false} TopIsOneMap(ops: seq<Op>, views: seq<Utxo>)
    requires views != [] && LegalRun(ops, views) && Pop !in ops
    ensures var after := PlainRun(ops, views); after[|after| - 1] == OneMap(ops, views[|views| - 1])
    decreases |ops|
  {
    if ops != [] {
      var next := Plain(ops[0], views);
      TopIsOneMap(ops[1..], next);
      assert ops[0] != Pop;
      if ops[0].Flush? { assert next[|next| - 1] == views[|views| - 1]; }
    }
  }

  // The whole law: run any operations that discard no cache, flush from the top down, and
  // the database holds the plain map.
  method RunAndFlush(stack: CoinsViewStack, ops: seq<Op>, hashBlock: int, full: nat -> bool)
    requires stack.Valid() && LegalRun(ops, stack.views) && Pop !in ops && Settled(stack.disk) && hashBlock != NO_BLOCK
    modifies stack
    ensures stack.Valid() && stack.disk.coins == OneMap(ops, old(stack.views)[|old(stack.views)| - 1])
  {
    ghost var before := stack.views;
    var _ := Run(stack, ops, full);
    TopIsOneMap(ops, before);
    ghost var after := stack.views;
    var n := |stack.caches|;
    while n > 0
      invariant 0 <= n <= |stack.caches|
      invariant stack.Valid() && Settled(stack.disk) && stack.views[n] == after[|after| - 1]
    {
      n := n - 1;
      var _, _ := stack.Flush(n, hashBlock, full);
    }
  }
}
