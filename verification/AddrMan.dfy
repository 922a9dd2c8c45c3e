/** The address manager (src/addrman.cpp, src/addrman.h).

    The tables vvNew and vvTried are maps from slots to ids: an absent slot is one that
    holds -1.  Keyed hashing of addresses is an arbitrary, fixed set of functions; time and
    randomness are arguments. */
module AddrMan {
  import opened Powers
  import Sets

  const NEW_BUCKET_COUNT := 1024
  const TRIED_BUCKET_COUNT := 256
  const BUCKET_SIZE := 64
  const NEW_BUCKETS_PER_ADDRESS := 8
  const HORIZON_DAYS := 30
  const RETRIES := 3
  const MAX_FAILURES := 10
  const MIN_FAIL_DAYS := 7
  const REPLACEMENT_HOURS := 4
  const TRIED_COLLISION_SIZE := 10
  const TEST_WINDOW := 40 * 60

  type NetAddr = nat
  datatype Service = Service(ip: NetAddr, port: nat)
  datatype Address = Address(service: Service, nTime: int, nServices: set<nat>)
  datatype Slot = Slot(bucket: nat, pos: nat)

  /** The hashes under the manager's key and AS map, and the address classes. */
  datatype Hashes = Hashes(
    triedHash: Service -> nat,
    newHash: (Service, NetAddr) -> nat,
    posHash: (Service, bool, nat) -> nat,
    routable: NetAddr -> bool,
    valid: NetAddr -> bool)
  {
    function TriedSlot(s: Service): Slot {
      var bucket := triedHash(s) % TRIED_BUCKET_COUNT;
      Slot(bucket, Position(s, false, bucket))
    }

    function NewSlot(s: Service, source: NetAddr): Slot {
      var bucket := newHash(s, source) % NEW_BUCKET_COUNT;
      Slot(bucket, Position(s, true, bucket))
    }

    function Position(s: Service, isNew: bool, bucket: nat): nat {
      posHash(s, isNew, bucket) % BUCKET_SIZE
    }
  }

  datatype Info = Info(
    service: Service, nTime: int, nServices: set<nat>, source: NetAddr,
    nLastTry: int, nLastCountAttempt: int, nLastSuccess: int, nAttempts: int,
    nRefCount: int, fInTried: bool, nRandomPos: int)
  {
    predicate IsTerrible(now: int)
      ensures IsTerrible(now) <==> !Worthwhile(this, now)
    {
      if nLastTry != 0 && nLastTry >= now - 60 then false
      else
        || nTime > now + 10 * 60
        || nTime == 0 || now - nTime > HORIZON_DAYS * 24 * 60 * 60
        || (nLastSuccess == 0 && nAttempts >= RETRIES)
        || (now - nLastSuccess > MIN_FAIL_DAYS * 24 * 60 * 60 && nAttempts >= MAX_FAILURES)
    }
  }

  /** An address worth keeping: just tried, or heard of within thirty days, and neither without a success in
      three attempts nor without one in a week and ten attempts. */
  ghost predicate Worthwhile(info: Info, now: int) {
    || (info.nLastTry != 0 && now - info.nLastTry <= 60)
    || (info.nTime != 0 && -600 <= now - info.nTime <= 30 * 86400
        && (info.nAttempts < 3 || info.nLastSuccess != 0)
        && (info.nAttempts < 10 || now - info.nLastSuccess <= 7 * 86400))
  }

  function Max(a: int, b: int): (r: int)
    ensures r >= a && r >= b && (r == a || r == b)
  {
    if a > b then a else b
  }

  type InfoMap = map<int, Info>
  type Table = map<Slot, int>

  // ---------- the invariant, one conjunct per pair of structures ----------

  /** vRandom lists every id once, at the position its entry records. */
  ghost predicate RandomOk(infos: InfoMap, vRandom: seq<int>) {
    && (forall i | 0 <= i < |vRandom| :: vRandom[i] in infos && infos[vRandom[i]].nRandomPos == i)
    && (forall n | n in infos :: 0 <= infos[n].nRandomPos < |vRandom| && vRandom[infos[n].nRandomPos] == n)
  }

  /** mapAddr is the inverse of id |-> network address. */
  ghost predicate AddrOk(infos: InfoMap, mapAddr: map<NetAddr, int>) {
    && (forall a | a in mapAddr :: mapAddr[a] in infos && infos[mapAddr[a]].service.ip == a)
    && (forall n | n in infos :: infos[n].service.ip in mapAddr && mapAddr[infos[n].service.ip] == n)
  }

  /** The tried table holds exactly the tried entries, each in its own slot. */
  ghost predicate TriedOk(h: Hashes, infos: InfoMap, tried: Table) {
    && (forall s | s in tried :: tried[s] in infos && infos[tried[s]].fInTried && s == h.TriedSlot(infos[tried[s]].service))
    && (forall n | n in infos && infos[n].fInTried :: TriedIn(h, infos[n], n, tried))
  }

  ghost predicate TriedIn(h: Hashes, info: Info, n: int, tried: Table) {
    h.TriedSlot(info.service) in tried && tried[h.TriedSlot(info.service)] == n
  }

  ghost function SlotsOf(table: Table, n: int): set<Slot> {
    set s | s in table && table[s] == n
  }

  /** Every slot of the new table holds an entry at its own position of that bucket, and an
      entry's reference count is the number of slots holding it. */
  ghost predicate NewOk(h: Hashes, infos: InfoMap, newTable: Table) {
    && (forall s | s in newTable :: newTable[s] in infos && NewSlotFits(h, infos[newTable[s]], s))
    && (forall n | n in infos :: infos[n].nRefCount == |SlotsOf(newTable, n)|)
  }

  ghost predicate NewSlotFits(h: Hashes, info: Info, s: Slot) {
    s.bucket < NEW_BUCKET_COUNT && s.pos == h.Position(info.service, true, s.bucket)
  }

  ghost function TriedIds(infos: InfoMap): set<int> {
    set n | n in infos && infos[n].fInTried
  }

  ghost function NewIds(infos: InfoMap): set<int> {
    set n | n in infos && !infos[n].fInTried
  }

  /** Tried entries hold no references, new entries one to eight; `floating` entries are in
      neither table while an operation moves them. */
  ghost predicate StatusOk(infos: InfoMap, floating: set<int>) {
    && (forall n | n in floating :: n in infos)
    && forall n | n in infos ::
         if n in floating then !infos[n].fInTried && infos[n].nRefCount == 0
         else if infos[n].fInTried then infos[n].nRefCount == 0
         else 1 <= infos[n].nRefCount <= NEW_BUCKETS_PER_ADDRESS
  }

  /** The counters, while `uncounted` new entries are out of the books. */
  ghost predicate CountsOk(infos: InfoMap, nTried: int, nNew: int, uncounted: int) {
    nTried == |TriedIds(infos)| && nNew + uncounted == |NewIds(infos)|
  }

  /** The tried slot of every entry waiting in the collision set is taken. */
  ghost predicate CollisionsOk(h: Hashes, infos: InfoMap, tried: Table, collisions: set<int>, nIdCount: int) {
    && |collisions| <= TRIED_COLLISION_SIZE
    && (forall n | n in collisions :: 0 <= n < nIdCount)
    && (forall n | n in collisions && n in infos :: h.TriedSlot(infos[n].service) in tried)
  }

  ghost predicate IdsOk(infos: InfoMap, nIdCount: int) {
    0 <= nIdCount && forall n | n in infos :: 0 <= n < nIdCount
  }

  const NONE := -1

  /** `after` is `before` without the id `gone`, apart from positions in vRandom. */
  ghost predicate SameButPos(before: InfoMap, after: InfoMap, gone: int) {
    && (forall n :: n in after <==> n in before && n != gone)
    && (forall n | n in after :: after[n] == before[n].(nRandomPos := after[n].nRandomPos))
  }

  // SwapRandom, on the two fields it changes.
  method SwapIn(infos: InfoMap, vRandom: seq<int>, p1: nat, p2: nat) returns (after: InfoMap, v: seq<int>)
    requires RandomOk(infos, vRandom) && NONE !in infos && p1 < |vRandom| && p2 < |vRandom|
    ensures RandomOk(after, v) && SameButPos(infos, after, NONE)
    ensures v == vRandom[p1 := vRandom[p2]][p2 := vRandom[p1]]
  {
    after, v := infos, vRandom;
    if p1 != p2 {
      var id1, id2 := v[p1], v[p2];
      assert id1 != id2;
      after := after[id1 := after[id1].(nRandomPos := p2)];
      after := after[id2 := after[id2].(nRandomPos := p1)];
      v := v[p1 := id2];
      v := v[p2 := id1];
    }
  }

  /** In one bucket an entry can only be at its own position. */
  lemma OneSlotPerBucket(h: Hashes, infos: InfoMap, table: Table, n: int, s: Slot)
    requires NewOk(h, infos, table) && n in infos && s.pos == h.Position(infos[n].service, true, s.bucket)
    ensures forall t | t in table && table[t] == n && t.bucket == s.bucket :: t == s
  {
    forall t | t in table && table[t] == n && t.bucket == s.bucket ensures t == s {
      assert NewSlotFits(h, infos[table[t]], t);
    }
  }

  // MakeTried's loop over the new buckets: returns the entry without references and the
  // table without the entry.
  method PullReferences(h: Hashes, infos: InfoMap, newTable: Table, n: int) returns (info: Info, table: Table)
    requires NewOk(h, infos, newTable) && n in infos
    ensures info == infos[n].(nRefCount := 0) && NewOk(h, infos[n := info], table)
    ensures table == Without(newTable, n)
  {
    info, table := infos[n], newTable;
    ghost var now := infos;
    for bucket := 0 to NEW_BUCKET_COUNT
      invariant info == infos[n].(nRefCount := info.nRefCount) && now == infos[n := info]
      invariant NewOk(h, now, table)
      invariant forall s | s in table :: s in newTable && table[s] == newTable[s] && (table[s] == n ==> s.bucket >= bucket)
      invariant forall s | s in newTable && newTable[s] != n :: s in table
    {
      var s := Slot(bucket, h.Position(info.service, true, bucket));
      OneSlotPerBucket(h, now, table, n, s);
      if s in table && table[s] == n {
        UnrefKeeps(h, now, table, s);
        table := table - {s};
        info := info.(nRefCount := info.nRefCount - 1);
        now := now[n := info];
      }
    }
    assert forall s | s in table :: NewSlotFits(h, now[table[s]], s);
    assert SlotsOf(table, n) == {};
    assert n in now;
    WithoutIs(newTable, n, table);
  }

  lemma WithoutIs(before: Table, n: int, after: Table)
    requires forall s | s in after :: s in before && after[s] == before[s] != n
    requires forall s | s in before && before[s] != n :: s in after
    ensures after == Without(before, n)
  {
  }

  lemma PutBack(table: Table, s: Slot, n: int)
    ensures (table - {s})[s := n] == table[s := n]
  {
  }

  class Manager {
    const h: Hashes
    var nIdCount: int
    var mapInfo: InfoMap
    var mapAddr: map<NetAddr, int>
    var vRandom: seq<int>
    var nTried: int
    var vvTried: Table
    var nNew: int
    var vvNew: Table
    var nLastGood: int
    var collisions: set<int>

    ghost predicate Inv(floating: set<int>, uncounted: int)
      reads this
    {
      && RandomOk(mapInfo, vRandom)
      && AddrOk(mapInfo, mapAddr)
      && TriedOk(h, mapInfo, vvTried)
      && NewOk(h, mapInfo, vvNew)
      && StatusOk(mapInfo, floating)
      && CountsOk(mapInfo, nTried, nNew, uncounted)
      && IdsOk(mapInfo, nIdCount)
    }

    ghost predicate Valid()
      reads this
    {
      Inv({}, 0) && CollisionsOk(h, mapInfo, vvTried, collisions, nIdCount)
    }

    // Unserialize, before it prunes the `floating` entries, which found no slot.
    constructor Loaded(h: Hashes, infos: InfoMap, addrs: map<NetAddr, int>, random: seq<int>, tried: Table, table: Table,
                       nIdCount: int, nTried: int, nNew: int, ghost floating: set<int>)
      requires RandomOk(infos, random) && AddrOk(infos, addrs) && TriedOk(h, infos, tried) && NewOk(h, infos, table)
      requires StatusOk(infos, floating) && CountsOk(infos, nTried, nNew, 0) && IdsOk(infos, nIdCount)
      ensures Inv(floating, 0) && this.h == h && mapInfo == infos && vvNew == table && vvTried == tried && collisions == {}
    {
      this.h, mapInfo, mapAddr, vRandom, vvTried, vvNew := h, infos, addrs, random, tried, table;
      this.nIdCount, this.nTried, this.nNew, collisions, nLastGood := nIdCount, nTried, nNew, {}, 1;
    }

    constructor (h: Hashes)
      ensures Valid() && mapInfo == map[] && collisions == {} && this.h == h
    {
      this.h := h;
      nIdCount, mapInfo, mapAddr, vRandom := 0, map[], map[], [];
      nTried, vvTried, nNew, vvNew := 0, map[], 0, map[];
      nLastGood, collisions := 1, {};
    }

    method SwapRandom(p1: nat, p2: nat)
      requires RandomOk(mapInfo, vRandom) && NONE !in mapInfo && p1 < |vRandom| && p2 < |vRandom|
      modifies this`mapInfo, this`vRandom
      ensures RandomOk(mapInfo, vRandom) && SameButPos(old(mapInfo), mapInfo, NONE)
      ensures vRandom == old(vRandom)[p1 := old(vRandom)[p2]][p2 := old(vRandom)[p1]]
    {
      mapInfo, vRandom := SwapIn(mapInfo, vRandom, p1, p2);
    }

    method Delete(n: int, ghost floating: set<int>, ghost uncounted: int)
      requires Inv(floating, uncounted) && n in floating
      modifies this`mapInfo, this`mapAddr, this`vRandom, this`nNew
      ensures Inv(floating - {n}, uncounted)
      ensures SameButPos(old(mapInfo), mapInfo, n)
      ensures mapAddr == old(mapAddr) - {old(mapInfo)[n].service.ip}
    {
      SwapRandom(mapInfo[n].nRandomPos, |vRandom| - 1);
      vRandom := vRandom[..|vRandom| - 1];
      mapAddr := mapAddr - {mapInfo[n].service.ip};
      mapInfo := mapInfo - {n};
      nNew := nNew - 1;
      DeleteKeeps(h, old(mapInfo), mapInfo, old(mapAddr), vvTried, vvNew, floating, n);
      DeleteCounts(old(mapInfo), mapInfo, n);
    }

    // ClearNew, first part: empties a slot of the new table and takes one reference from its entry.
    method Unref(s: Slot, ghost floating: set<int>, ghost uncounted: int) returns (n: int)
      requires Inv(floating, uncounted) && s in vvNew
      modifies this`mapInfo, this`vvNew
      ensures n == old(vvNew)[s] && n in old(mapInfo) && old(mapInfo)[n].nRefCount >= 1 && vvNew == old(vvNew) - {s}
      ensures mapInfo == old(mapInfo)[n := old(mapInfo)[n].(nRefCount := old(mapInfo)[n].nRefCount - 1)]
      ensures Inv(if mapInfo[n].nRefCount == 0 then floating + {n} else floating, uncounted)
    {
      n := vvNew[s];
      var info := mapInfo[n];
      assert s in SlotsOf(vvNew, n);
      info := info.(nRefCount := info.nRefCount - 1);
      UnrefKeeps(h, mapInfo, vvNew, s);
      TweakKeeps(h, mapInfo, n, info, vRandom, mapAddr, vvTried, nIdCount);
      mapInfo := mapInfo[n := info];
      vvNew := vvNew - {s};
    }

    method ClearNew(s: Slot, ghost floating: set<int>, ghost uncounted: int)
      requires Inv(floating, uncounted)
      modifies this`mapInfo, this`mapAddr, this`vRandom, this`nNew, this`vvNew
      ensures Inv(floating, uncounted) && vvNew == old(vvNew) - {s}
      ensures Cleared(old(mapInfo), old(vvNew), s, mapInfo)
    {
      if s in vvNew {
        var n := Unref(s, floating, uncounted);
        ghost var mid := mapInfo;
        if mapInfo[n].nRefCount == 0 {
          assert n !in floating;
          Delete(n, floating + {n}, uncounted);
          assert floating + {n} - {n} == floating;
        }
        UnlinkedBy(old(mapInfo), mid, mapInfo, n);
      }
    }

    // MakeTried, first part: takes a new entry out of every new bucket.
    method RemoveFromNew(n: int)
      requires Inv({}, 0) && n in mapInfo && !mapInfo[n].fInTried
      modifies this`mapInfo, this`vvNew, this`nNew
      ensures Inv({n}, 1)
      ensures mapInfo == old(mapInfo)[n := old(mapInfo)[n].(nRefCount := 0)]
      ensures vvNew == Without(old(vvNew), n)
    {
      var info, table := PullReferences(h, mapInfo, vvNew, n);
      TweakKeeps(h, mapInfo, n, info, vRandom, mapAddr, vvTried, nIdCount);
      mapInfo, vvNew := mapInfo[n := info], table;
      nNew := nNew - 1;
    }

    // Enters an entry into an empty slot of the new table.
    method Link(e: int, s: Slot, ghost floating: set<int>, ghost uncounted: int)
      requires Inv(floating, uncounted) && e in mapInfo && !mapInfo[e].fInTried && mapInfo[e].nRefCount < NEW_BUCKETS_PER_ADDRESS
      requires NewSlotFits(h, mapInfo[e], s) && s !in vvNew
      modifies this`mapInfo, this`vvNew
      ensures Inv(floating - {e}, uncounted)
      ensures mapInfo == old(mapInfo)[e := old(mapInfo)[e].(nRefCount := old(mapInfo)[e].nRefCount + 1)]
      ensures vvNew == old(vvNew)[s := e]
    {
      LinkKeeps(h, mapInfo, vRandom, mapAddr, vvTried, vvNew, e, s, nIdCount);
      mapInfo := mapInfo[e := mapInfo[e].(nRefCount := mapInfo[e].nRefCount + 1)];
      vvNew := vvNew[s := e];
    }

    // Clears slot `s` of the new table and enters `n`.
    method Insert(n: int, s: Slot, ghost floating: set<int>, ghost uncounted: int)
      requires Inv(floating, uncounted)
      requires n in mapInfo && !mapInfo[n].fInTried && mapInfo[n].nRefCount < NEW_BUCKETS_PER_ADDRESS
      requires NewSlotFits(h, mapInfo[n], s) && (s in vvNew ==> vvNew[s] != n)
      modifies this`mapInfo, this`mapAddr, this`vRandom, this`nNew, this`vvNew
      ensures Inv(floating - {n}, uncounted) && Only(old(mapInfo), mapInfo, Displaced(old(mapInfo), old(vvNew), s))
      ensures vvNew == old(vvNew)[s := n]
    {
      ClearNew(s, floating, uncounted);
      ghost var m := mapInfo;
      Link(n, s, floating, uncounted);
      ClearedOnly(h, old(mapInfo), old(vvNew), s, m);
      TweakOnly(m, n, mapInfo[n]);
      OnlyThen(old(mapInfo), m, mapInfo, Displaced(old(mapInfo), old(vvNew), s));
      PutBack(old(vvNew), s, n);
    }

    // Takes the entry in tried slot `s` out of the tried table.
    method Untry(s: Slot, ghost n: int)
      requires Inv({n}, 1) && s in vvTried
      modifies this`mapInfo, this`nTried, this`vvTried
      ensures Inv({n, old(vvTried)[s]}, 2) && vvTried == old(vvTried) - {s}
      ensures mapInfo == old(mapInfo)[old(vvTried)[s] := old(mapInfo)[old(vvTried)[s]].(fInTried := false)]
      ensures old(vvTried)[s] != n
    {
      UntryKeeps(h, mapInfo, mapAddr, vRandom, vvTried, vvNew, n, s);
      var e := vvTried[s];
      mapInfo := mapInfo[e := mapInfo[e].(fInTried := false)];
      vvTried := vvTried - {s};
      nTried := nTried - 1;
    }

    // MakeTried, second part: moves the entry in tried slot `s` back to the new table.
    method EvictTried(s: Slot, ghost n: int)
      requires Inv({n}, 1) && s in vvTried
      modifies this`mapInfo, this`mapAddr, this`vRandom, this`nNew, this`vvNew, this`nTried, this`vvTried
      ensures Inv({n}, 1) && vvTried == old(vvTried) - {s}
      ensures var e := old(vvTried)[s]; var u := h.NewSlot(old(mapInfo)[e].service, old(mapInfo)[e].source);
              Only(old(mapInfo), mapInfo, Displaced(old(mapInfo), old(vvNew), u)) && vvNew == old(vvNew)[u := e]
    {
      var e := vvTried[s];
      Untry(s, n);
      ghost var m := mapInfo;
      Requeue(e, n);
      UntriedOnly(old(mapInfo), m, mapInfo, old(vvNew), e, h.NewSlot(m[e].service, m[e].source));
    }

    // Enters an entry that was taken out of the tried table into its first new bucket.
    method Requeue(e: int, ghost n: int)
      requires Inv({n, e}, 2) && e != n
      modifies this`mapInfo, this`mapAddr, this`vRandom, this`nNew, this`vvNew
      ensures Inv({n}, 1)
      ensures var u := h.NewSlot(old(mapInfo)[e].service, old(mapInfo)[e].source);
              Only(old(mapInfo), mapInfo, Displaced(old(mapInfo), old(vvNew), u)) && vvNew == old(vvNew)[u := e]
    {
      var u := h.NewSlot(mapInfo[e].service, mapInfo[e].source);
      assert u in vvNew && vvNew[u] == e ==> u in SlotsOf(vvNew, e);
      Insert(e, u, {n, e}, 2);
      assert {n, e} - {e} == {n};
      nNew := nNew + 1;
    }

    // MakeTried, last part: enters a floating entry into its empty tried slot.
    method PlaceTried(n: int, s: Slot)
      requires Inv({n}, 1) && s == h.TriedSlot(mapInfo[n].service) && s !in vvTried
      modifies this`mapInfo, this`nTried, this`vvTried
      ensures Inv({}, 0) && vvTried == old(vvTried)[s := n]
      ensures mapInfo == old(mapInfo)[n := old(mapInfo)[n].(fInTried := true)]
    {
      TryKeeps(h, mapInfo, mapAddr, vRandom, vvTried, vvNew, n);
      vvTried := vvTried[s := n];
      nTried := nTried + 1;
      mapInfo := mapInfo[n := mapInfo[n].(fInTried := true)];
    }

    // MakeTried up to the point where the entry is in no table and tried slot `s` is empty.
    method MakeRoom(n: int, s: Slot)
      requires Inv({}, 0) && n in mapInfo && !mapInfo[n].fInTried
      modifies this`mapInfo, this`mapAddr, this`vRandom, this`nNew, this`vvNew, this`nTried, this`vvTried
      ensures Inv({n}, 1) && vvTried == old(vvTried) - {s}
      ensures Only(old(mapInfo), mapInfo, RoomLost(h, old(mapInfo), old(vvTried), old(vvNew), n, s))
      ensures vvNew == RoomTable(h, old(mapInfo), old(vvTried), old(vvNew), n, s)
    {
      TweakOnly(mapInfo, n, mapInfo[n].(nRefCount := 0));
      RemoveFromNew(n);
      ghost var m := mapInfo;
      if s in vvTried {
        EvictTried(s, n);
        SameRoom(h, old(mapInfo), m, old(vvTried), old(vvNew), n, s);
        OnlyTrans(old(mapInfo), m, mapInfo, RoomLost(h, old(mapInfo), old(vvTried), old(vvNew), n, s));
      }
    }

    // Moves a new entry to its slot in the tried table.
    method MakeTried(n: int)
      requires Valid() && n in mapInfo && !mapInfo[n].fInTried
      modifies this`mapInfo, this`mapAddr, this`vRandom, this`nNew, this`vvNew, this`nTried, this`vvTried
      ensures Valid() && Promoted(h, old(mapInfo), old(vvTried), old(vvNew), n, mapInfo, vvNew)
      ensures vvTried == old(vvTried)[h.TriedSlot(old(mapInfo)[n].service) := n]
      ensures n in mapInfo && mapInfo[n].fInTried
    {
      var s := h.TriedSlot(mapInfo[n].service);
      MakeRoom(n, s);
      ghost var m := mapInfo;
      PlaceTried(n, s);
      TriedOnly(old(mapInfo), m, mapInfo, n, RoomLost(h, old(mapInfo), old(vvTried), old(vvNew), n, s));
      PutBack(old(vvTried), s, n);
      CollisionsKeep(h, old(mapInfo), mapInfo, old(vvTried), vvTried, collisions, nIdCount, RoomLost(h, old(mapInfo), old(vvTried), old(vvNew), n, s));
    }

    // Updates the statistics of an entry in place.
    method Touch(n: int, info: Info)
      requires Valid() && n in mapInfo && SameStanding(mapInfo[n], info)
      modifies this`mapInfo
      ensures Valid() && mapInfo == old(mapInfo)[n := info]
    {
      TweakKeeps(h, mapInfo, n, info, vRandom, mapAddr, vvTried, nIdCount);
      StatsKeeps(h, mapInfo, n, info, vvTried, vvNew, collisions, nIdCount);
      mapInfo := mapInfo[n := info];
    }

    // The id of a network address, if known.
    method Find(ip: NetAddr) returns (n: int)
      requires Valid()
      ensures n == NONE <==> ip !in mapAddr
      ensures n != NONE ==> n in mapInfo && mapAddr[ip] == n && mapInfo[n].service.ip == ip
    {
      n := NONE;
      if ip in mapAddr && mapAddr[ip] in mapInfo {
        n := mapAddr[ip];
      }
    }

    // Good_, last part: moves a new entry to the tried table, or queues it when its slot is taken.
    method Promote(n: int, testBeforeEvict: bool, rnd: nat) returns (r: GoodOutcome)
      requires Valid() && n in mapInfo && !mapInfo[n].fInTried
      modifies this`mapInfo, this`mapAddr, this`vRandom, this`nNew, this`vvNew, this`nTried, this`vvTried, this`collisions
      ensures Valid() && (r == Collision || r == Moved)
      ensures r == Collision <==> testBeforeEvict && h.TriedSlot(old(mapInfo)[n].service) in old(vvTried)
      ensures r == Collision ==> mapInfo == old(mapInfo) && mapAddr == old(mapAddr) && vvNew == old(vvNew) && vvTried == old(vvTried)
      ensures collisions == if r == Collision then Queued(old(collisions), n) else old(collisions)
      ensures r == Moved ==> vvTried == old(vvTried)[h.TriedSlot(old(mapInfo)[n].service) := n]
      ensures r == Moved ==> Promoted(h, old(mapInfo), old(vvTried), old(vvNew), n, mapInfo, vvNew)
      ensures r == Moved ==> n in mapInfo && mapInfo[n].fInTried
    {
      var bucket := FindBucket(h, mapInfo, vvNew, n, rnd);
      var slot := h.TriedSlot(mapInfo[n].service);
      r := NoBucket;
      if bucket != NONE {
        if testBeforeEvict && slot in vvTried {
          if |collisions| < TRIED_COLLISION_SIZE {
            collisions := collisions + {n};
          }
          r := Collision;
        } else {
          MakeTried(n);
          r := Moved;
        }
      }
    }

    // Good_ once the entry is found.
    method GoodKnown(n: int, testBeforeEvict: bool, nTime: int, rnd: nat) returns (r: GoodOutcome)
      requires Valid() && n in mapInfo
      modifies this`mapInfo, this`mapAddr, this`vRandom, this`nNew, this`vvNew, this`nTried, this`vvTried, this`collisions
      ensures Valid() && r in {AlreadyTried, Collision, Moved}
      ensures r == AlreadyTried <==> old(mapInfo)[n].fInTried
      ensures r == Collision <==> !old(mapInfo)[n].fInTried && testBeforeEvict && h.TriedSlot(old(mapInfo)[n].service) in old(vvTried)
      ensures r != Moved ==> mapAddr == old(mapAddr) && vvNew == old(vvNew) && vvTried == old(vvTried)
      ensures r != Moved ==> mapInfo == old(mapInfo)[n := Succeeded(old(mapInfo)[n], nTime)]
      ensures r == Moved ==> vvTried == old(vvTried)[h.TriedSlot(old(mapInfo)[n].service) := n]
      ensures r == Moved ==> PromotedGood(h, old(mapInfo), old(vvTried), old(vvNew), n, nTime, mapInfo, vvNew)
      ensures r != Collision ==> n in mapInfo && mapInfo[n].fInTried
      ensures collisions == if r == Collision then Queued(old(collisions), n) else old(collisions)
    {
      var info := mapInfo[n];
      Touch(n, Succeeded(info, nTime));
      if info.fInTried {
        return AlreadyTried;
      }
      r := Promote(n, testBeforeEvict, rnd);
    }

    method Good(service: Service, testBeforeEvict: bool, nTime: int, rnd: nat) returns (r: GoodOutcome)
      requires Valid()
      modifies this
      ensures Valid() && r != NoBucket
      ensures r == Unknown <==> service.ip !in old(mapAddr)
      ensures r == OtherPort <==> service.ip in old(mapAddr) && old(mapInfo)[old(mapAddr)[service.ip]].service != service
      ensures r == AlreadyTried <==> r != Unknown && r != OtherPort && old(mapInfo)[old(mapAddr)[service.ip]].fInTried
      ensures r == Collision <==> r != Unknown && r != OtherPort && !old(mapInfo)[old(mapAddr)[service.ip]].fInTried
                                  && testBeforeEvict && h.TriedSlot(service) in old(vvTried)
      ensures r == Unknown || r == OtherPort ==> mapInfo == old(mapInfo)
      ensures r != Moved ==> mapAddr == old(mapAddr) && vvNew == old(vvNew) && vvTried == old(vvTried)
      ensures r == Moved ==> vvTried == old(vvTried)[h.TriedSlot(service) := old(mapAddr)[service.ip]]
      ensures r == Moved ==> PromotedGood(h, old(mapInfo), old(vvTried), old(vvNew), old(mapAddr)[service.ip], nTime, mapInfo, vvNew)
      ensures r == AlreadyTried || r == Moved ==> old(mapAddr)[service.ip] in mapInfo && mapInfo[old(mapAddr)[service.ip]].fInTried
      ensures r == AlreadyTried || r == Collision ==>
                var n := old(mapAddr)[service.ip]; mapInfo == old(mapInfo)[n := Succeeded(old(mapInfo)[n], nTime)]
      ensures collisions == if r == Collision then Queued(old(collisions), old(mapAddr)[service.ip]) else old(collisions)
      ensures nIdCount == old(nIdCount) && nLastGood == nTime
    {
      nLastGood := nTime;
      var n := Find(service.ip);
      if n == NONE {
        return Unknown;
      }
      var info := mapInfo[n];
      if info.service != service {
        return OtherPort;
      }
      r := GoodKnown(n, testBeforeEvict, nTime, rnd);
    }

    // Makes an entry for an address that is not known yet, in no table.
    method Create(addr: Address, source: NetAddr) returns (n: int)
      requires Valid() && addr.service.ip !in mapAddr
      modifies this`nIdCount, this`mapInfo, this`mapAddr, this`vRandom
      ensures n == old(nIdCount) && nIdCount == n + 1 && Inv({n}, 1)
      ensures CollisionsOk(h, mapInfo, vvTried, collisions, nIdCount)
      ensures mapInfo == old(mapInfo)[n := NewInfo(addr, source, |old(vRandom)|)]
      ensures mapAddr == old(mapAddr)[addr.service.ip := n]
    {
      n := nIdCount;
      nIdCount := nIdCount + 1;
      CreateKeeps(h, mapInfo, vvTried, vvNew, n, NewInfo(addr, source, |vRandom|));
      CreateCounts(mapInfo, n, NewInfo(addr, source, |vRandom|));
      CreateIndexes(mapInfo, mapAddr, vRandom, n, NewInfo(addr, source, |vRandom|));
      mapInfo := mapInfo[n := NewInfo(addr, source, |vRandom|)];
      mapAddr := mapAddr[addr.service.ip := n];
      vRandom := vRandom + [n];
    }

    // Add_ for a fresh entry: applies the time penalty.
    method Penalize(n: int, penalty: int)
      requires Inv({n}, 0) && CollisionsOk(h, mapInfo, vvTried, collisions, nIdCount)
      modifies this`mapInfo
      ensures Inv({n}, 0) && CollisionsOk(h, mapInfo, vvTried, collisions, nIdCount)
      ensures mapInfo == old(mapInfo)[n := old(mapInfo)[n].(nTime := Max(0, old(mapInfo)[n].nTime - penalty))]
    {
      var info := mapInfo[n].(nTime := Max(0, mapInfo[n].nTime - penalty));
      TweakKeeps(h, mapInfo, n, info, vRandom, mapAddr, vvTried, nIdCount);
      mapInfo := mapInfo[n := info];
    }

    // Add_ for a known address: refreshes time and services, and says whether to try for
    // another bucket.
    method Refresh(n: int, addr: Address, penalty: int, now: int, rnd: nat) returns (another: bool)
      requires Valid() && n in mapInfo
      modifies this`mapInfo
      ensures Valid() && mapInfo == old(mapInfo)[n := Refreshed(old(mapInfo)[n], addr, penalty, now)]
      ensures another <==> Another(mapInfo[n], addr, rnd)
    {
      var info := mapInfo[n];
      var interval := if now - addr.nTime < 24 * 60 * 60 then 60 * 60 else 24 * 60 * 60;
      if addr.nTime != 0 && (info.nTime == 0 || info.nTime < addr.nTime - interval - penalty) {
        info := info.(nTime := Max(0, addr.nTime - penalty));
      }
      info := info.(nServices := info.nServices + addr.nServices);
      Touch(n, info);
      another := TriesAnother(info, addr, rnd);
    }

    // Add_: enters entry `n` into slot `s`, whose holder may be displaced.
    method Enter(n: int, s: Slot, ghost floating: set<int>)
      requires Inv(floating, 0) && CollisionsOk(h, mapInfo, vvTried, collisions, nIdCount)
      requires n in mapInfo && !mapInfo[n].fInTried && mapInfo[n].nRefCount < NEW_BUCKETS_PER_ADDRESS
      requires floating == (if mapInfo[n].nRefCount == 0 then {n} else {}) && (s !in vvNew || vvNew[s] != n)
      requires NewSlotFits(h, mapInfo[n], s)
      modifies this`mapInfo, this`mapAddr, this`vRandom, this`nNew, this`vvNew
      ensures Valid() && vvNew == old(vvNew)[s := n] && Only(old(mapInfo), mapInfo, Displaced(old(mapInfo), old(vvNew), s))
    {
      Insert(n, s, floating, 0);
      assert floating - {n} == {};
      CollisionsKeep(h, old(mapInfo), mapInfo, vvTried, vvTried, collisions, nIdCount, Displaced(old(mapInfo), old(vvNew), s));
    }

    // Add_: deletes an entry that stays without a slot.
    method Drop(n: int)
      requires Inv({n}, 0) && CollisionsOk(h, mapInfo, vvTried, collisions, nIdCount) && n in mapInfo && !mapInfo[n].fInTried
      modifies this`mapInfo, this`mapAddr, this`vRandom, this`nNew
      ensures Valid() && Only(old(mapInfo), mapInfo, {n})
    {
      Delete(n, {n}, 0);
      assert {n} - {n} == {};
      DeletedOnly(old(mapInfo), mapInfo, n);
      CollisionsKeep(h, old(mapInfo), mapInfo, vvTried, vvTried, collisions, nIdCount, {n});
    }

    // Add_, last part: enters entry `n` into its new bucket for `source` if the slot is free
    // or its holder may be displaced; drops an entry that stays without a slot.
    method Place(n: int, source: NetAddr, now: int)
      requires n in mapInfo && !mapInfo[n].fInTried && mapInfo[n].nRefCount < NEW_BUCKETS_PER_ADDRESS
      requires Inv(if mapInfo[n].nRefCount == 0 then {n} else {}, 0)
      requires CollisionsOk(h, mapInfo, vvTried, collisions, nIdCount)
      modifies this`mapInfo, this`mapAddr, this`vRandom, this`nNew, this`vvNew
      ensures Valid() && PlacedAs(h, old(mapInfo), old(vvNew), n, h.NewSlot(old(mapInfo)[n].service, source), now, mapInfo, vvNew)
    {
      var s := h.NewSlot(mapInfo[n].service, source);
      ghost var floating := if mapInfo[n].nRefCount == 0 then {n} else {};
      if s !in vvNew || vvNew[s] != n {
        if Enters(mapInfo, vvNew, n, s, now) {
          Enter(n, s, floating);
        } else if mapInfo[n].nRefCount == 0 {
          Drop(n);
        }
      } else {
        assert s in SlotsOf(vvNew, n);
      }
    }

    // Add_ for an address that is not known yet, up to the choice of a slot.
    method Register(addr: Address, source: NetAddr, penalty: int) returns (n: int)
      requires Valid() && addr.service.ip !in mapAddr
      modifies this`mapInfo, this`mapAddr, this`vRandom, this`nNew, this`nIdCount
      ensures n == old(nIdCount) && n !in old(mapInfo) && Inv({n}, 0) && CollisionsOk(h, mapInfo, vvTried, collisions, nIdCount)
      ensures mapInfo == old(mapInfo)[n := Penalized(addr, source, |old(vRandom)|, penalty)]
    {
      n := Create(addr, source);
      nNew := nNew + 1;
      Penalize(n, penalty);
    }

    // Add_ for an address that is not known yet.
    method AddUnknown(addr: Address, source: NetAddr, penalty: int, now: int)
      requires Valid() && addr.service.ip !in mapAddr
      modifies this`mapInfo, this`mapAddr, this`vRandom, this`nNew, this`vvNew, this`nIdCount
      ensures Valid()
      ensures PlacedAs(h, old(mapInfo)[old(nIdCount) := Penalized(addr, source, |old(vRandom)|, penalty)], old(vvNew),
                       old(nIdCount), h.NewSlot(addr.service, source), now, mapInfo, vvNew)
      ensures addr.service.ip in mapAddr <==> CanTake(old(mapInfo), old(vvNew), h.NewSlot(addr.service, source), now)
      ensures OnlyBadForgotten(old(mapInfo), mapInfo, now)
    {
      var n := Register(addr, source, penalty);
      ghost var infos := mapInfo;
      Place(n, source, now);
      ForgetsOnlyBad(h, infos, vvNew, old(vvNew), n, h.NewSlot(addr.service, source), now, mapInfo);
      AddedIff(h, old(mapInfo), old(vvNew), old(mapAddr), n, Penalized(addr, source, |old(vRandom)|, penalty),
               h.NewSlot(addr.service, source), now, mapInfo, vvNew, mapAddr);
    }

    // Add_ for a known address.
    method AddKnown(n: int, addr: Address, source: NetAddr, penalty: int, now: int, rnd: nat)
      requires Valid() && n in mapInfo
      modifies this`mapInfo, this`mapAddr, this`vRandom, this`nNew, this`vvNew
      ensures Valid() && OnlyBadForgotten(old(mapInfo), mapInfo, now)
      ensures var info := Refreshed(old(mapInfo)[n], addr, penalty, now);
              if Another(info, addr, rnd) then
                PlacedAs(h, old(mapInfo)[n := info], old(vvNew), n, h.NewSlot(info.service, source), now, mapInfo, vvNew)
              else
                mapInfo == old(mapInfo)[n := info] && vvNew == old(vvNew)
    {
      var another := Refresh(n, addr, penalty, now, rnd);
      if another {
        ghost var infos := mapInfo;
        Place(n, source, now);
        ForgetsOnlyBad(h, infos, vvNew, old(vvNew), n, h.NewSlot(infos[n].service, source), now, mapInfo);
      }
    }

    // Adds an address heard of from `source`.  The result says that the address was unknown,
    // even when no bucket had room for it.
    method Add(addr: Address, source: NetAddr, nTimePenalty: int, now: int, rnd: nat) returns (isNew: bool)
      requires Valid()
      modifies this
      ensures Valid() && vvTried == old(vvTried) && collisions == old(collisions) && nLastGood == old(nLastGood)
      ensures isNew <==> h.routable(addr.service.ip) && addr.service.ip !in old(mapAddr)
      ensures !h.routable(addr.service.ip) ==> mapInfo == old(mapInfo) && vvNew == old(vvNew)
      ensures OnlyBadForgotten(old(mapInfo), mapInfo, now)
      ensures isNew ==>
                PlacedAs(h, old(mapInfo)[old(nIdCount) := Penalized(addr, source, |old(vRandom)|, Penalty(addr, source, nTimePenalty))],
                         old(vvNew), old(nIdCount), h.NewSlot(addr.service, source), now, mapInfo, vvNew)
      ensures isNew ==> (addr.service.ip in mapAddr <==> CanTake(old(mapInfo), old(vvNew), h.NewSlot(addr.service, source), now))
      ensures h.routable(addr.service.ip) && !isNew ==>
                (var n := old(mapAddr)[addr.service.ip]; var info := Refreshed(old(mapInfo)[n], addr, Penalty(addr, source, nTimePenalty), now);
                 if Another(info, addr, rnd) then
                   PlacedAs(h, old(mapInfo)[n := info], old(vvNew), n, h.NewSlot(info.service, source), now, mapInfo, vvNew)
                 else
                   mapInfo == old(mapInfo)[n := info] && vvNew == old(vvNew))
    {
      if !h.routable(addr.service.ip) {
        return false;
      }
      var n := Find(addr.service.ip);
      var penalty := nTimePenalty;
      if addr.service.ip == source {
        penalty := 0;
      }
      isNew := n == NONE;
      if isNew {
        AddUnknown(addr, source, penalty, now);
      } else {
        AddKnown(n, addr, source, penalty, now, rnd);
      }
    }

    // The id of an entry for exactly this address and port, if there is one.
    method FindExact(service: Service) returns (n: int)
      requires Valid()
      ensures n != NONE ==> n in mapInfo && mapInfo[n].service == service && forall m | m in mapInfo && m != n :: mapInfo[m].service != service
      ensures n == NONE ==> forall m | m in mapInfo :: mapInfo[m].service != service
    {
      n := Find(service.ip);
      if n != NONE && mapInfo[n].service != service {
        n := NONE;
      }
    }

    method Attempt(service: Service, countFailure: bool, nTime: int)
      requires Valid()
      modifies this`mapInfo
      ensures Valid() && mapInfo.Keys == old(mapInfo).Keys
      ensures forall m | m in mapInfo ::
                mapInfo[m] == if old(mapInfo)[m].service == service then Attempted(old(mapInfo)[m], countFailure, nTime, nLastGood) else old(mapInfo)[m]
    {
      var n := FindExact(service);
      if n != NONE {
        var info := mapInfo[n].(nLastTry := nTime);
        if countFailure && info.nLastCountAttempt < nLastGood {
          info := info.(nLastCountAttempt := nTime, nAttempts := info.nAttempts + 1);
        }
        Touch(n, info);
      }
    }

    method Connected(service: Service, nTime: int)
      requires Valid()
      modifies this`mapInfo
      ensures Valid() && mapInfo.Keys == old(mapInfo).Keys
      ensures forall m | m in mapInfo ::
                mapInfo[m] == if old(mapInfo)[m].service == service then Seen(old(mapInfo)[m], nTime) else old(mapInfo)[m]
    {
      var n := FindExact(service);
      if n != NONE && nTime - mapInfo[n].nTime > 20 * 60 {
        Touch(n, mapInfo[n].(nTime := nTime));
      }
    }

    method SetServices(service: Service, nServices: set<nat>)
      requires Valid()
      modifies this`mapInfo
      ensures Valid() && mapInfo.Keys == old(mapInfo).Keys
      ensures forall m | m in mapInfo ::
                mapInfo[m] == if old(mapInfo)[m].service == service then old(mapInfo)[m].(nServices := nServices) else old(mapInfo)[m]
    {
      var n := FindExact(service);
      if n != NONE {
        Touch(n, mapInfo[n].(nServices := nServices));
      }
    }

    // Up to the asked-for number of addresses in random order, without the terrible ones.
    method GetAddr(maxAddresses: nat, maxPct: nat, now: int, rnd: nat -> nat) returns (out: seq<Service>, ghost shown: nat)
      requires Valid()
      modifies this`mapInfo, this`vRandom
      ensures Valid() && SameButPos(old(mapInfo), mapInfo, NONE)
      ensures shown <= |vRandom| && ListsGood(old(mapInfo), mapAddr, now, vRandom[..shown], out)
      ensures |out| <= GetAddrLimit(|old(vRandom)|, maxAddresses, maxPct)
      ensures |out| < GetAddrLimit(|old(vRandom)|, maxAddresses, maxPct) ==> shown == |vRandom|
    {
      mapInfo, vRandom, out, shown := Gather(mapInfo, vRandom, GetAddrLimit(|vRandom|, maxAddresses, maxPct), now, rnd);
      ShuffleKeeps(h, old(mapInfo), mapInfo, mapAddr, vvTried, vvNew, collisions, nIdCount);
      DrawnOnce(mapInfo, vRandom, shown);
      GoodOfExact(old(mapInfo), mapAddr, now, vRandom[..shown]);
    }

    // Settles the queued collisions, one after the other.  Tried slots never become free, so
    // no queued entry is found without an occupant to test.
    method ResolveCollisions(clock: int -> Readings, rnd: int -> nat) returns (sawFreeSlot: bool, ghost order: seq<int>, ghost views: seq<View>)
      requires Valid()
      modifies this
      ensures Valid() && !sawFreeSlot && collisions <= old(collisions)
      ensures Settled(h, order, views, clock, collisions, old(Now()), Now())
      ensures forall id :: id in order <==> id in old(collisions)
      ensures forall s | s in old(vvTried) && Safe(h, old(Now()), old(collisions), clock, s) :: s in vvTried && vvTried[s] == old(vvTried)[s]
    {
      sawFreeSlot, order, views := false, [], [Now()];
      ghost var first := Now();
      var pending := collisions;
      while pending != {}
        invariant Valid() && !sawFreeSlot && pending <= collisions <= old(collisions)
        invariant Settled(h, order, views, clock, collisions, old(Now()), Now())
        invariant forall id :: id in order <==> id in old(collisions) && id !in pending
        invariant SafeHeld(h, first, old(collisions), clock, Now())
        decreases pending
      {
        Sets.HasMember(pending);
        var id :| id in pending;
        pending := pending - {id};
        sawFreeSlot := sawFreeSlot || (id in mapInfo && h.TriedSlot(mapInfo[id].service) !in vvTried);
        ghost var before, was := collisions, Now();
        Resolve(id, clock(id), rnd(id));
        SettledNext(h, order, views, clock, before, old(Now()), was, id, Now(), collisions);
        SafeStaysHeld(h, first, old(collisions), clock, was, id, Now());
        order, views := order + [id], views + [Now()];
      }
    }

    ghost function Now(): View
      reads this
    {
      View(mapInfo, vvTried, vvNew)
    }

    method Evict(id: int, now: int, rnd: nat)
      requires Valid() && id in mapInfo && h.TriedSlot(mapInfo[id].service) in vvTried
      modifies this
      ensures Valid() && collisions == old(collisions)
      ensures Replaces(h, old(Now()), id, now, Now())
    {
      assert mapInfo[id].fInTried ==> TriedIn(h, mapInfo[id], id, vvTried);
      var r := Good(mapInfo[id].service, false, now, rnd);
      assert r == AlreadyTried || r == Moved;
    }

    method Resolve(id: int, times: Readings, rnd: nat)
      requires Valid() && id in collisions
      modifies this
      ensures Valid() && Settles(h, old(Now()), id, times, Now())
      ensures collisions == if Waits(h, old(Now()), id, times) then old(collisions) else old(collisions) - {id}
      ensures Contends(h, old(Now()), id) ==>
                var s, holder := h.TriedSlot(old(mapInfo)[id].service), HolderFor(h, old(Now()), id);
                && s in vvTried && vvTried[s] == (if Yields(old(mapInfo)[holder], old(mapInfo)[id], times) then id else holder)
    {
      var verdict := Judge(h, mapInfo, vvTried, id, times);
      JudgedByTimes(h, Now(), id, times);
      if verdict == Replace {
        Evict(id, times.good, rnd);
      }
      if verdict != KeepWaiting {
        collisions := collisions - {id};
      }
    }

    // The occupant that a randomly chosen queued entry would displace.
    method SelectTriedCollision() returns (found: bool, n: int)
      requires Valid()
      modifies this`collisions
      ensures Valid()
      ensures found ==> n in mapInfo && mapInfo[n].fInTried && collisions == old(collisions) && Displaces(h, mapInfo, vvTried, collisions, n)
      ensures !found ==> collisions == old(collisions) == {} || exists id | id in old(collisions) && id !in mapInfo :: collisions == old(collisions) - {id}
    {
      if collisions == {} {
        return false, NONE;
      }
      Sets.HasMember(collisions);
      var id :| id in collisions;
      if id !in mapInfo {
        collisions := collisions - {id};
        return false, NONE;
      }
      return true, vvTried[h.TriedSlot(mapInfo[id].service)];
    }
  }

  /** n holds the tried slot that some queued entry wants. */
  ghost predicate Displaces(h: Hashes, infos: InfoMap, tried: Table, collisions: set<int>, n: int) {
    exists id :: id in collisions && id in infos && h.TriedSlot(infos[id].service) in tried && tried[h.TriedSlot(infos[id].service)] == n
  }

  /** Connected_ on an entry: the time moves on in steps of at least twenty minutes. */
  ghost function Seen(info: Info, nTime: int): (r: Info)
    ensures r == info || (r == info.(nTime := r.nTime) && r.nTime == nTime > info.nTime + 1200)
    ensures nTime - r.nTime <= 1200
  {
    if nTime - info.nTime > 20 * 60 then info.(nTime := nTime) else info
  }

  /** Attempt_ on an entry: a failure counts once after each success anywhere. */
  ghost function Attempted(info: Info, countFailure: bool, nTime: int, nLastGood: int): Info {
    if countFailure && info.nLastCountAttempt < nLastGood then
      info.(nLastTry := nTime, nLastCountAttempt := nTime, nAttempts := info.nAttempts + 1)
    else
      info.(nLastTry := nTime)
  }

  /** Any number of attempts, all of which count. */
  ghost function AttemptAll(info: Info, times: seq<int>, nLastGood: int): Info {
    if times == [] then info
    else Attempted(AttemptAll(info, times[..|times| - 1], nLastGood), true, times[|times| - 1], nLastGood)
  }

  /** Until the next success anywhere, no number of attempts adds more than one failure. */
  lemma {:induction false} OneFailureAtMost(info: Info, times: seq<int>, nLastGood: int)
    requires times != [] && forall i | 0 <= i < |times| :: times[i] >= nLastGood
    ensures var r := AttemptAll(info, times, nLastGood);
            && r == info.(nLastTry := times[|times| - 1], nAttempts := r.nAttempts, nLastCountAttempt := r.nLastCountAttempt)
            && if info.nLastCountAttempt < nLastGood then r.nAttempts == info.nAttempts + 1 && r.nLastCountAttempt == times[0]
               else r.nAttempts == info.nAttempts && r.nLastCountAttempt == info.nLastCountAttempt
    decreases |times|
  {
    var last := |times| - 1;
    if last > 0 {
      OneFailureAtMost(info, times[..last], nLastGood);
    } else {
      assert times[..last] == [];
    }
  }

  /** A success makes an address worth keeping at once, and for a week if it is heard of. */
  lemma SuccessCounts(info: Info, nTime: int, now: int)
    requires 0 < nTime <= now
    ensures now <= nTime + 60 || (info.nTime != 0 && -600 <= now - info.nTime <= 30 * 86400) ==> !Succeeded(info, nTime).IsTerrible(now)
  {
  }

  /** The statistics of an entry that has just been connected to. */
  function Succeeded(info: Info, nTime: int): Info {
    info.(nLastSuccess := nTime, nLastTry := nTime, nAttempts := 0)
  }

  /** The collision set takes one more entry while it has room. */
  function Queued(collisions: set<int>, n: int): set<int> {
    if |collisions| < TRIED_COLLISION_SIZE then collisions + {n} else collisions
  }

  datatype Verdict = KeepWaiting | Drop | Replace

  /** ResolveCollisions_'s decision about one queued entry. */
  function Judge(h: Hashes, infos: InfoMap, tried: Table, id: int, times: Readings): Verdict {
    if id !in infos || !h.valid(infos[id].service.ip) then Drop
    else
      var s := h.TriedSlot(infos[id].service);
      if s !in tried || tried[s] !in infos then Replace
      else
        var occupant := infos[tried[s]];
        if times.success - occupant.nLastSuccess < REPLACEMENT_HOURS * 60 * 60 then Drop
        else if times.lastTry - occupant.nLastTry < REPLACEMENT_HOURS * 60 * 60 then
          (if times.minute - occupant.nLastTry > 60 then Replace else KeepWaiting)
        else if times.window - infos[id].nLastSuccess > TEST_WINDOW then Replace
        else KeepWaiting
  }

  /** The clock as read for one queued entry: at each of the four tests, and when it is promoted. */
  datatype Readings = Readings(success: int, lastTry: int, minute: int, window: int, good: int)

  /** What settling a collision can change. */
  datatype View = View(infos: InfoMap, tried: Table, newTable: Table)

  /** Entry `id` has taken its tried slot from the occupant. */
  ghost predicate Replaces(h: Hashes, v: View, id: int, now: int, w: View) {
    && id in v.infos && w.tried == v.tried[h.TriedSlot(v.infos[id].service) := id]
    && if v.infos[id].fInTried then w.infos == v.infos[id := Succeeded(v.infos[id], now)] && w.newTable == v.newTable
       else PromotedGood(h, v.infos, v.tried, v.newTable, id, now, w.infos, w.newTable)
  }

  /** A connection to the holder of the slot succeeded within the last four hours. */
  ghost predicate Proven(holder: Info, times: Readings) {
    times.success - holder.nLastSuccess < 4 * 3600
  }

  /** It was tried within the last four hours, and has had more than a minute to answer. */
  ghost predicate HadItsChance(holder: Info, times: Readings) {
    times.lastTry - holder.nLastTry < 4 * 3600 && times.minute - holder.nLastTry > 60
  }

  /** Nobody tried it for four hours, while the entry has been waiting for more than forty minutes. */
  ghost predicate NeverTested(holder: Info, entry: Info, times: Readings) {
    times.lastTry - holder.nLastTry >= 4 * 3600 && times.window - entry.nLastSuccess > 40 * 60
  }

  /** The holder of a tried slot has to make room for an entry that waits for it. */
  ghost predicate Yields(holder: Info, entry: Info, times: Readings) {
    !Proven(holder, times) && (HadItsChance(holder, times) || NeverTested(holder, entry, times))
  }

  /** Entry `id` can have the slot that it waits for, which has a holder. */
  ghost predicate Contends(h: Hashes, v: View, id: int) {
    && id in v.infos && h.valid(v.infos[id].service.ip)
    && h.TriedSlot(v.infos[id].service) in v.tried && HolderFor(h, v, id) in v.infos
  }

  ghost function HolderFor(h: Hashes, v: View, id: int): int
    requires id in v.infos && h.TriedSlot(v.infos[id].service) in v.tried
  {
    v.tried[h.TriedSlot(v.infos[id].service)]
  }

  ghost predicate Settles(h: Hashes, v: View, id: int, times: Readings, w: View) {
    if Contends(h, v, id) && Yields(v.infos[HolderFor(h, v, id)], v.infos[id], times) then Replaces(h, v, id, times.good, w) else w == v
  }

  /** Neither is the holder proven nor does it have to make room yet. */
  ghost predicate Waits(h: Hashes, v: View, id: int, times: Readings) {
    Contends(h, v, id) && !Proven(v.infos[HolderFor(h, v, id)], times) && !Yields(v.infos[HolderFor(h, v, id)], v.infos[id], times)
  }

  /** Every queued entry that wants slot `s` finds its holder proven. */
  ghost predicate Safe(h: Hashes, v: View, queued: set<int>, clock: int -> Readings, s: Slot) {
    && s in v.tried && v.tried[s] in v.infos
    && forall id | id in queued && id in v.infos && h.TriedSlot(v.infos[id].service) == s :: Proven(v.infos[v.tried[s]], clock(id))
  }

  ghost predicate SameServices(v: View, w: View) {
    forall m | m in w.infos :: m in v.infos && w.infos[m].service == v.infos[m].service
  }

  /** Slot `s` is still held by the same entry, with the same last success. */
  ghost predicate Held(v: View, w: View, s: Slot)
    requires s in v.tried && v.tried[s] in v.infos
  {
    && s in w.tried && w.tried[s] == v.tried[s] && v.tried[s] in w.infos
    && w.infos[v.tried[s]].nLastSuccess == v.infos[v.tried[s]].nLastSuccess
  }

  ghost predicate SafeHeld(h: Hashes, first: View, queued: set<int>, clock: int -> Readings, v: View) {
    SameServices(first, v) && forall s | Safe(h, first, queued, clock, s) :: Held(first, v, s)
  }

  /** Taking another slot changes nothing for a tried entry, and no address. */
  lemma ReplacesElsewhere(h: Hashes, v: View, id: int, now: int, w: View, s: Slot)
    requires TriedOk(h, v.infos, v.tried) && StatusOk(v.infos, {}) && Replaces(h, v, id, now, w)
    requires s in v.tried && h.TriedSlot(v.infos[id].service) != s
    ensures Held(v, w, s)
  {
    var n: int := v.tried[s];
    if !v.infos[id].fInTried {
      var u := v.infos[id := Succeeded(v.infos[id], now)];
      var lost := RoomLost(h, u, v.tried, v.newTable, id, h.TriedSlot(u[id].service));
      assert n !in lost;
      assert n in w.infos && SameData(u[n], w.infos[n]);
    }
  }

  lemma ReplacesServices(h: Hashes, v: View, id: int, now: int, w: View)
    requires Replaces(h, v, id, now, w)
    ensures SameServices(v, w)
  {
    if !v.infos[id].fInTried {
      var u := v.infos[id := Succeeded(v.infos[id], now)];
      forall m | m in w.infos ensures m in v.infos && w.infos[m].service == v.infos[m].service {
        assert m in u && SameData(u[m], w.infos[m]);
      }
    }
  }

  lemma SafeStaysHeld(h: Hashes, first: View, queued: set<int>, clock: int -> Readings, v: View, id: int, w: View)
    requires TriedOk(h, v.infos, v.tried) && StatusOk(v.infos, {}) && id in queued
    requires SafeHeld(h, first, queued, clock, v) && Settles(h, v, id, clock(id), w)
    ensures SafeHeld(h, first, queued, clock, w)
  {
    if Contends(h, v, id) && Yields(v.infos[HolderFor(h, v, id)], v.infos[id], clock(id)) {
      ReplacesServices(h, v, id, clock(id).good, w);
      forall s | Safe(h, first, queued, clock, s) ensures Held(first, w, s) {
        assert Held(first, v, s);
        assert v.infos[id].service == first.infos[id].service;
        ReplacesElsewhere(h, v, id, clock(id).good, w, s);
      }
    }
  }

  /** The verdict is what the times ask for. */
  lemma JudgedByTimes(h: Hashes, v: View, id: int, times: Readings)
    requires TriedOk(h, v.infos, v.tried) && (id in v.infos ==> h.TriedSlot(v.infos[id].service) in v.tried)
    ensures Judge(h, v.infos, v.tried, id, times) == Replace <==>
            Contends(h, v, id) && Yields(v.infos[HolderFor(h, v, id)], v.infos[id], times)
    ensures Judge(h, v.infos, v.tried, id, times) == KeepWaiting <==> Waits(h, v, id, times)
  {
  }

  /** Each entry of `order` was settled once, as its state at that time demanded, and waits
      on exactly if so judged. */
  ghost predicate SettledInTurn(h: Hashes, order: seq<int>, views: seq<View>, clock: int -> Readings, collisions: set<int>) {
    && |views| == |order| + 1
    && (forall i | 0 <= i < |order| :: Settles(h, views[i], order[i], clock(order[i]), views[i + 1]))
    && (forall i | 0 <= i < |order| :: order[i] in collisions <==> Waits(h, views[i], order[i], clock(order[i])))
    && (forall i, j | 0 <= i < j < |order| :: order[i] != order[j])
  }

  /** Such a history leads from one state to another. */
  ghost predicate Settled(h: Hashes, order: seq<int>, views: seq<View>, clock: int -> Readings, collisions: set<int>, first: View, last: View) {
    SettledInTurn(h, order, views, clock, collisions) && views[0] == first && views[|order|] == last
  }

  lemma SettledNext(h: Hashes, order: seq<int>, views: seq<View>, clock: int -> Readings, collisions: set<int>, first: View, last: View,
                    id: int, w: View, after: set<int>)
    requires Settled(h, order, views, clock, collisions, first, last) && id !in order && id in collisions
    requires Settles(h, last, id, clock(id), w)
    requires after == if Waits(h, last, id, clock(id)) then collisions else collisions - {id}
    ensures Settled(h, order + [id], views + [w], clock, after, first, w)
  {
    var order', views' := order + [id], views + [w];
    forall i | 0 <= i < |order'|
      ensures Settles(h, views'[i], order'[i], clock(order'[i]), views'[i + 1])
      ensures order'[i] in after <==> Waits(h, views'[i], order'[i], clock(order'[i]))
    {
      assert views'[i] == views[i];
      if i < |order| { assert order'[i] == order[i] && views'[i + 1] == views[i + 1]; }
    }
  }

  // ---------- the recorded times ----------

  /** Times are not negative, and the entries in the tried table have been connected to. */
  ghost predicate TimesOk(v: View) {
    && (forall n | n in v.infos :: v.infos[n].nLastTry >= 0 && v.infos[n].nLastSuccess >= 0)
    && (forall s | s in v.tried && v.tried[s] in v.infos :: v.infos[v.tried[s]].nLastSuccess > 0)
  }

  lemma OnlyTimes(v: View, w: View, lost: set<int>)
    requires TimesOk(v) && Only(v.infos, w.infos, lost)
    requires forall s | s in w.tried && w.tried[s] in w.infos :: OldOrConnected(v, w.tried[s], s)
    ensures TimesOk(w)
  {
    forall s | s in w.tried && w.tried[s] in w.infos ensures w.infos[w.tried[s]].nLastSuccess > 0 {
      var m: int := w.tried[s];
      assert m in v.infos && OldOrConnected(v, m, s);
      assert SameData(v.infos[m], w.infos[m]);
    }
  }

  ghost predicate OldOrConnected(v: View, n: int, s: Slot) {
    (s in v.tried && v.tried[s] == n) || (n in v.infos && v.infos[n].nLastSuccess > 0)
  }

  /** Operations that move nothing and record no success. */
  lemma StatsTimes(v: View, w: View)
    requires TimesOk(v) && w.tried == v.tried && w.infos.Keys == v.infos.Keys
    requires forall n | n in w.infos :: w.infos[n].nLastSuccess == v.infos[n].nLastSuccess && w.infos[n].nLastTry >= 0
    ensures TimesOk(w)
  {
    forall s | s in w.tried && w.tried[s] in w.infos ensures w.infos[w.tried[s]].nLastSuccess > 0 {
      var m: int := w.tried[s];
      assert m in v.infos;
    }
  }

  lemma PromotedTimes(h: Hashes, v: View, n: int, nTime: int, w: View)
    requires TimesOk(v) && nTime > 0 && PromotedGood(h, v.infos, v.tried, v.newTable, n, nTime, w.infos, w.newTable)
    requires w.tried == v.tried[h.TriedSlot(v.infos[n].service) := n]
    ensures TimesOk(w)
  {
    var u := v.(infos := v.infos[n := Succeeded(v.infos[n], nTime)]);
    assert TimesOk(u);
    OnlyTimes(u, w, RoomLost(h, u.infos, v.tried, v.newTable, n, h.TriedSlot(u.infos[n].service)));
  }

  lemma {:induction false} SettledTimes(h: Hashes, order: seq<int>, views: seq<View>, clock: int -> Readings, collisions: set<int>, k: nat)
    requires SettledInTurn(h, order, views, clock, collisions) && k <= |order| && TimesOk(views[0])
    requires forall i | 0 <= i < |order| :: clock(order[i]).good > 0
    ensures TimesOk(views[k])
    decreases k
  {
    if k > 0 {
      SettledTimes(h, order, views, clock, collisions, k - 1);
      var v, w, id := views[k - 1], views[k], order[k - 1];
      assert Settles(h, v, id, clock(id), w);
      SettlesTimes(h, v, id, clock(id), w);
    }
  }

  lemma SettlesTimes(h: Hashes, v: View, id: int, times: Readings, w: View)
    requires TimesOk(v) && times.good > 0 && Settles(h, v, id, times, w)
    ensures TimesOk(w)
  {
    if Contends(h, v, id) && Yields(v.infos[HolderFor(h, v, id)], v.infos[id], times) && !v.infos[id].fInTried {
      PromotedTimes(h, v, id, times.good, w);
    }
  }

  lemma AddedTimes(h: Hashes, v: View, n: int, info: Info, s: Slot, now: int, w: View)
    requires TimesOk(v) && TriedOk(h, v.infos, v.tried) && w.tried == v.tried
    requires info.nLastTry >= 0 && info.nLastSuccess >= 0 && (n in v.infos ==> info.nLastSuccess == v.infos[n].nLastSuccess)
    requires PlacedAs(h, v.infos[n := info], v.newTable, n, s, now, w.infos, w.newTable)
    ensures TimesOk(w)
  {
    var u := v.(infos := v.infos[n := info]);
    assert TimesOk(u);
    if MayEnter(u.infos, v.newTable, n, s, now) {
      OnlyTimes(u, w, Displaced(u.infos, v.newTable, s));
    } else {
      OnlyTimes(u, w, if info.nRefCount == 0 then {n} else {});
    }
  }

  lemma SameTrans(a: InfoMap, b: InfoMap, c: InfoMap)
    requires SameButPos(a, b, NONE) && SameButPos(b, c, NONE)
    ensures SameButPos(a, c, NONE)
  {
  }

  // One step of GetAddr_: swaps a random entry not drawn yet into place n.
  method Draw(infos: InfoMap, vRandom: seq<int>, n: nat, p: nat, now: int, ghost first: InfoMap)
    returns (after: InfoMap, v: seq<int>, service: Service, good: bool)
    requires RandomOk(infos, vRandom) && SameButPos(first, infos, NONE) && NONE !in first && n <= p < |vRandom|
    ensures RandomOk(after, v) && SameButPos(first, after, NONE)
    ensures |v| == |vRandom| && v[..n] == vRandom[..n]
    ensures v[n] in first && service == first[v[n]].service && good == Worthwhile(first[v[n]], now)
  {
    after, v := SwapIn(infos, vRandom, n, p);
    SameTrans(first, infos, after);
    var id: int := v[n];
    assert id in after && id in first;
    service, good := after[id].service, !after[id].IsTerrible(now);
  }

  // GetAddr_'s loop: draws entries at random, moving them to the front of vRandom.
  method Gather(infos: InfoMap, vRandom: seq<int>, nNodes: nat, now: int, rnd: nat -> nat)
    returns (after: InfoMap, v: seq<int>, out: seq<Service>, ghost shown: nat)
    requires RandomOk(infos, vRandom) && NONE !in infos
    ensures RandomOk(after, v) && SameButPos(infos, after, NONE) && |v| == |vRandom|
    ensures shown <= |v| && out == GoodOf(infos, now, v[..shown])
    ensures |out| <= nNodes && (|out| < nNodes ==> shown == |v|)
  {
    after, v, out, shown := infos, vRandom, [], 0;
    var n := 0;
    while n < |v| && |out| < nNodes
      invariant 0 <= n <= |v| == |vRandom| && |out| <= nNodes && shown == n
      invariant RandomOk(after, v) && SameButPos(infos, after, NONE)
      invariant out == GoodOf(infos, now, v[..n])
    {
      var service, good;
      ghost var prefix := v[..n];
      after, v, service, good := Draw(after, v, n, rnd(n) % (|v| - n) + n, now, infos);
      if good {
        out := out + [service];
      }
      n, shown := n + 1, shown + 1;
      assert v[..n][..n - 1] == prefix;
    }
  }

  /** The addresses of the entries of `ids` that are worth keeping, in order. */
  ghost function GoodOf(infos: InfoMap, now: int, ids: seq<int>): seq<Service> {
    if ids == [] then [] else
      var n := ids[|ids| - 1];
      GoodOf(infos, now, ids[..|ids| - 1]) + (if n in infos && Worthwhile(infos[n], now) then [infos[n].service] else [])
  }

  /** The most addresses within the number and the percentage asked for; zero asks for no limit. */
  function GetAddrLimit(total: nat, maxAddresses: nat, maxPct: nat): (n: nat)
    ensures maxAddresses != 0 ==> n <= maxAddresses
    ensures maxPct != 0 ==> 100 * n <= maxPct * total
    ensures maxPct == 0 ==> n <= total
    ensures n == maxAddresses != 0 || (if maxPct == 0 then n == total else 100 * (n + 1) > maxPct * total)
  {
    var n := if maxPct != 0 then maxPct * total / 100 else total;
    if maxAddresses != 0 && maxAddresses < n then maxAddresses else n
  }

  ghost predicate ListsGood(infos: InfoMap, mapAddr: map<NetAddr, int>, now: int, ids: seq<int>, g: seq<Service>) {
    && (forall n | n in ids && n in infos && Worthwhile(infos[n], now) :: infos[n].service in g)
    && (forall k | 0 <= k < |g| :: GoodOne(infos, mapAddr, now, ids, g[k]))
    && (forall j, k | 0 <= j < k < |g| :: g[j] != g[k])
  }

  /** The address belongs to one of the entries `ids`, which is worth keeping. */
  ghost predicate GoodOne(infos: InfoMap, mapAddr: map<NetAddr, int>, now: int, ids: seq<int>, a: Service) {
    a.ip in mapAddr && mapAddr[a.ip] in ids && mapAddr[a.ip] in infos &&
    infos[mapAddr[a.ip]].service == a && Worthwhile(infos[mapAddr[a.ip]], now)
  }

  /** GetAddr_ lists good addresses only, all of them unless the limit stops it, and no
      address twice. */
  lemma {:induction false} GoodOfExact(infos: InfoMap, mapAddr: map<NetAddr, int>, now: int, ids: seq<int>)
    requires AddrOk(infos, mapAddr)
    requires forall j, k | 0 <= j < k < |ids| :: ids[j] != ids[k]
    ensures ListsGood(infos, mapAddr, now, ids, GoodOf(infos, now, ids))
    decreases |ids|
  {
    if ids != [] {
      var last := |ids| - 1;
      GoodOfExact(infos, mapAddr, now, ids[..last]);
      assert ids == ids[..last] + [ids[last]];
      var g0, g := GoodOf(infos, now, ids[..last]), GoodOf(infos, now, ids);
      forall k | 0 <= k < |g| ensures GoodOne(infos, mapAddr, now, ids, g[k]) {
        if k < |g0| {
          assert g[k] == g0[k] && GoodOne(infos, mapAddr, now, ids[..last], g0[k]);
        }
      }
    }
  }

  lemma DrawnOnce(infos: InfoMap, vRandom: seq<int>, shown: nat)
    requires RandomOk(infos, vRandom) && shown <= |vRandom|
    ensures forall j, k | 0 <= j < k < shown :: vRandom[..shown][j] != vRandom[..shown][k]
  {
  }

  lemma ShuffleKeeps(h: Hashes, before: InfoMap, after: InfoMap, mapAddr: map<NetAddr, int>, tried: Table, newTable: Table, collisions: set<int>, nIdCount: int)
    requires SameButPos(before, after, NONE) && NONE !in before
    requires AddrOk(before, mapAddr) && TriedOk(h, before, tried) && NewOk(h, before, newTable) && StatusOk(before, {})
    requires CollisionsOk(h, before, tried, collisions, nIdCount)
    ensures AddrOk(after, mapAddr) && TriedOk(h, after, tried) && NewOk(h, after, newTable) && StatusOk(after, {})
    ensures CollisionsOk(h, after, tried, collisions, nIdCount)
    ensures TriedIds(after) == TriedIds(before) && NewIds(after) == NewIds(before)
  {
    forall a | a in mapAddr ensures mapAddr[a] in after && after[mapAddr[a]].service.ip == a {
      assert mapAddr[a] in before && mapAddr[a] != NONE;
    }
    forall s | s in tried ensures tried[s] in after && after[tried[s]].fInTried && s == h.TriedSlot(after[tried[s]].service) {
      assert tried[s] in before && tried[s] != NONE;
    }
    forall s | s in newTable ensures newTable[s] in after && NewSlotFits(h, after[newTable[s]], s) {
      assert newTable[s] in before && newTable[s] != NONE;
    }
    forall x ensures x in TriedIds(after) <==> x in TriedIds(before) { assert x in after <==> x in before; }
    forall x ensures x in NewIds(after) <==> x in NewIds(before) { assert x in after <==> x in before; }
  }

  /** Whether an entry without references may have slot `s` of the new table. */
  ghost predicate CanTake(infos: InfoMap, newTable: Table, s: Slot, now: int) {
    s in newTable && newTable[s] in infos ==> !Worthwhile(infos[newTable[s]], now) || infos[newTable[s]].nRefCount > 1
  }

  /** Add_ on a known address: the newer time, less the penalty, and the union of services.  The time never
      goes back, moves by more than an hour or not at all, and is then not far behind what was heard. */
  ghost function Refreshed(info: Info, addr: Address, penalty: int, now: int): (r: Info)
    ensures SameStanding(info, r) && r == info.(nTime := r.nTime, nServices := info.nServices + addr.nServices)
    ensures r.nTime != info.nTime ==> r.nTime == Max(0, addr.nTime - penalty) && (info.nTime == 0 || r.nTime > info.nTime + 3600)
    ensures addr.nTime != 0 ==> addr.nTime - penalty - r.nTime <= if now - addr.nTime < 86400 then 3600 else 86400
    ensures addr.nTime == 0 ==> r.nTime == info.nTime
  {
    var interval := if now - addr.nTime < 24 * 60 * 60 then 60 * 60 else 24 * 60 * 60;
    var nTime :=
      if addr.nTime != 0 && (info.nTime == 0 || info.nTime < addr.nTime - interval - penalty)
      then Max(0, addr.nTime - penalty) else info.nTime;
    info.(nTime := nTime, nServices := info.nServices + addr.nServices)
  }

  /** A source announcing itself is not penalized. */
  ghost function Penalty(addr: Address, source: NetAddr, nTimePenalty: int): int {
    if addr.service.ip == source then 0 else nTimePenalty
  }

  /** Whether Add_ tries to give a refreshed entry one more bucket. */
  ghost predicate Another(info: Info, addr: Address, rnd: nat) {
    && addr.nTime != 0 && (info.nTime == 0 || addr.nTime > info.nTime)
    && !info.fInTried
    && 0 <= info.nRefCount < 8
    && rnd % P2(info.nRefCount) == 0
  }

  // Add_ for a known address: the tests before another bucket is tried
  method TriesAnother(info: Info, addr: Address, rnd: nat) returns (another: bool)
    requires 0 <= info.nRefCount <= NEW_BUCKETS_PER_ADDRESS
    ensures another <==> Another(info, addr, rnd)
  {
    if addr.nTime == 0 || (info.nTime != 0 && addr.nTime <= info.nTime) {
      return false;
    }
    if info.fInTried {
      return false;
    }
    if info.nRefCount == NEW_BUCKETS_PER_ADDRESS {
      return false;
    }
    var nFactor := Factor(info.nRefCount);
    another := !(nFactor > 1 && rnd % nFactor != 0);
  }

  // each reference held makes another one twice as hard to get
  method Factor(n: nat) returns (nFactor: nat)
    ensures nFactor == P2(n) > 0
  {
    nFactor := 1;
    for i := 0 to n
      invariant nFactor == P2(i)
    {
      nFactor := nFactor * 2;
    }
  }

  ghost function Penalized(addr: Address, source: NetAddr, pos: int, penalty: int): Info {
    NewInfo(addr, source, pos).(nTime := Max(0, addr.nTime - penalty))
  }

  function NewInfo(addr: Address, source: NetAddr, pos: int): Info {
    Info(addr.service, addr.nTime, addr.nServices, source, 0, 0, 0, 0, 0, false, pos)
  }

  /** Whether Add_ gives entry `n` the slot `s`, which does not hold it. */
  predicate Enters(infos: InfoMap, newTable: Table, n: int, s: Slot, now: int)
    requires n in infos
  {
    s !in newTable ||
    (newTable[s] != n && newTable[s] in infos &&
      (infos[newTable[s]].IsTerrible(now) || (infos[newTable[s]].nRefCount > 1 && infos[n].nRefCount == 0)))
  }

  /** The slot is free, or its holder is not worth keeping, or has another slot while entry `n` has none. */
  ghost predicate MayEnter(infos: InfoMap, newTable: Table, n: int, s: Slot, now: int)
    requires n in infos
  {
    s in newTable ==>
      && newTable[s] != n && newTable[s] in infos
      && (Worthwhile(infos[newTable[s]], now) ==> infos[newTable[s]].nRefCount >= 2 && infos[n].nRefCount == 0)
  }

  /** Only addresses that are not worth keeping are forgotten. */
  ghost predicate OnlyBadForgotten(before: InfoMap, after: InfoMap, now: int) {
    forall m | m in before && m !in after :: !Worthwhile(before[m], now)
  }

  /** Placing an entry deletes no other that is worth keeping. */
  lemma ForgetsOnlyBad(h: Hashes, infos: InfoMap, newAfter: Table, newTable: Table, n: int, s: Slot, now: int, after: InfoMap)
    requires n in infos && PlacedAs(h, infos, newTable, n, s, now, after, newAfter)
    ensures forall m | m in infos && m !in after && m != n :: !Worthwhile(infos[m], now)
    ensures infos[n].nRefCount > 0 ==> n in after
  {
  }

  /** Add_'s effect on the entries and the new table, once slot `s` is chosen for entry `n`. */
  ghost predicate PlacedAs(h: Hashes, infos: InfoMap, newTable: Table, n: int, s: Slot, now: int, after: InfoMap, newAfter: Table)
    requires n in infos
  {
    if MayEnter(infos, newTable, n, s, now) then
      Only(infos, after, Displaced(infos, newTable, s)) && newAfter == newTable[s := n]
    else
      Only(infos, after, if infos[n].nRefCount == 0 then {n} else {}) && newAfter == newTable
  }

  lemma CreateKeeps(h: Hashes, infos: InfoMap, tried: Table, newTable: Table, n: int, info: Info)
    requires TriedOk(h, infos, tried) && NewOk(h, infos, newTable) && StatusOk(infos, {})
    requires n !in infos && info.nRefCount == 0 && !info.fInTried
    ensures var after := infos[n := info];
            TriedOk(h, after, tried) && NewOk(h, after, newTable) && StatusOk(after, {n})
  {
    assert SlotsOf(newTable, n) == {};
  }

  lemma CreateCounts(infos: InfoMap, n: int, info: Info)
    requires n !in infos && !info.fInTried
    ensures TriedIds(infos[n := info]) == TriedIds(infos) && |NewIds(infos[n := info])| == |NewIds(infos)| + 1
  {
    var after := infos[n := info];
    forall x ensures x in TriedIds(after) <==> x in TriedIds(infos) {
      if x != n { assert x in after <==> x in infos; }
    }
    forall x ensures x in NewIds(after) <==> x in NewIds(infos) || x == n {
      if x != n { assert x in after <==> x in infos; }
    }
    assert NewIds(after) == NewIds(infos) + {n};
  }

  lemma CreateIndexes(infos: InfoMap, mapAddr: map<NetAddr, int>, vRandom: seq<int>, n: int, info: Info)
    requires RandomOk(infos, vRandom) && AddrOk(infos, mapAddr)
    requires n !in infos && info.service.ip !in mapAddr && info.nRandomPos == |vRandom|
    ensures RandomOk(infos[n := info], vRandom + [n])
    ensures AddrOk(infos[n := info], mapAddr[info.service.ip := n])
  {
    forall m | m in infos ensures infos[m].service.ip != info.service.ip {
      assert infos[m].service.ip in mapAddr;
    }
  }

  lemma CollisionsKeep(h: Hashes, before: InfoMap, after: InfoMap, triedBefore: Table, triedAfter: Table, collisions: set<int>,
                       nIdCount: int, lost: set<int>)
    requires Only(before, after, lost) && (forall s | s in triedBefore :: s in triedAfter)
    requires CollisionsOk(h, before, triedBefore, collisions, nIdCount)
    ensures CollisionsOk(h, after, triedAfter, collisions, nIdCount)
  {
  }

  lemma DeletedOnly(before: InfoMap, after: InfoMap, n: int)
    requires n in before && SameButPos(before, after, n)
    ensures Only(before, after, {n})
  {
  }

  datatype GoodOutcome = Unknown | OtherPort | AlreadyTried | NoBucket | Collision | Moved

  function Around(k: nat, rnd: nat): nat {
    (k + rnd) % NEW_BUCKET_COUNT
  }

  lemma AroundHits(bucket: nat, rnd: nat)
    ensures bucket < NEW_BUCKET_COUNT ==> exists j: nat | j < NEW_BUCKET_COUNT :: Around(j, rnd) == bucket
  {
    var j := (bucket - rnd) % NEW_BUCKET_COUNT;
    assert bucket < NEW_BUCKET_COUNT ==> Around(j, rnd) == bucket;
  }

  // Good_'s search, from a random bucket on, for a new bucket that holds entry `n`.
  method FindBucket(h: Hashes, infos: InfoMap, newTable: Table, n: int, rnd: nat) returns (bucket: int)
    requires NewOk(h, infos, newTable) && n in infos
    ensures bucket == NONE <==> infos[n].nRefCount == 0
    ensures bucket != NONE ==> 0 <= bucket < NEW_BUCKET_COUNT && FoundIn(h, infos[n].service, newTable, n, bucket)
  {
    for k := 0 to NEW_BUCKET_COUNT
      invariant forall j | 0 <= j < k :: !FoundIn(h, infos[n].service, newTable, n, Around(j, rnd))
    {
      bucket := Around(k, rnd);
      if FoundIn(h, infos[n].service, newTable, n, bucket) {
        assert Slot(bucket, h.Position(infos[n].service, true, bucket)) in SlotsOf(newTable, n);
        return;
      }
    }
    forall s | s in newTable ensures newTable[s] != n {
      AroundHits(s.bucket, rnd);
      assert NewSlotFits(h, infos[newTable[s]], s);
    }
    assert SlotsOf(newTable, n) == {};
    bucket := NONE;
  }

  predicate FoundIn(h: Hashes, service: Service, newTable: Table, n: int, bucket: nat) {
    var s := Slot(bucket, h.Position(service, true, bucket));
    s in newTable && newTable[s] == n
  }

  /** The parts of an entry that the tables depend on are the same. */
  ghost predicate SameStanding(a: Info, b: Info) {
    && a.service == b.service && a.nRandomPos == b.nRandomPos
    && a.fInTried == b.fInTried && a.nRefCount == b.nRefCount
  }

  lemma StatsKeeps(h: Hashes, infos: InfoMap, n: int, info: Info, tried: Table, newTable: Table, collisions: set<int>, nIdCount: int)
    requires n in infos && SameStanding(infos[n], info)
    requires NewOk(h, infos, newTable) && StatusOk(infos, {}) && CollisionsOk(h, infos, tried, collisions, nIdCount)
    ensures NewOk(h, infos[n := info], newTable) && StatusOk(infos[n := info], {})
    ensures CollisionsOk(h, infos[n := info], tried, collisions, nIdCount)
  {
  }

  /** Equal but for the place in the tables. */
  ghost predicate SameData(a: Info, b: Info) {
    b == a.(nRefCount := b.nRefCount, fInTried := b.fInTried, nRandomPos := b.nRandomPos)
  }

  /** The entries `lost` are gone; all others have kept their data. */
  ghost predicate Only(before: InfoMap, after: InfoMap, lost: set<int>) {
    && (forall m :: m in after <==> m in before && m !in lost)
    && (forall m | m in after :: SameData(before[m], after[m]))
  }

  lemma TweakOnly(infos: InfoMap, n: int, info: Info)
    requires n in infos && SameData(infos[n], info)
    ensures Only(infos, infos[n := info], {})
  {
  }

  lemma OnlyTrans(a: InfoMap, b: InfoMap, c: InfoMap, lost: set<int>)
    requires Only(a, b, {}) && Only(b, c, lost)
    ensures Only(a, c, lost)
  {
  }

  lemma OnlyThen(a: InfoMap, b: InfoMap, c: InfoMap, lost: set<int>)
    requires Only(a, b, lost) && Only(b, c, {})
    ensures Only(a, c, lost)
  {
  }

  /** The entry that goes when slot `s` of the new table is cleared. */
  ghost function Displaced(infos: InfoMap, newTable: Table, s: Slot): set<int> {
    if s in newTable && newTable[s] in infos && infos[newTable[s]].nRefCount == 1 then {newTable[s]} else {}
  }

  /** The holder of slot `s` has lost one reference, or has been deleted; all else is as before. */
  ghost predicate Cleared(before: InfoMap, newTable: Table, s: Slot, after: InfoMap) {
    if s in newTable then Unlinked(before, after, newTable[s]) else after == before
  }

  ghost predicate Unlinked(before: InfoMap, after: InfoMap, n: int)
  {
    && n in before
    && (forall m | m in after :: m in before)
    && (forall m | m in before && m != n :: m in after && after[m] == before[m].(nRandomPos := after[m].nRandomPos))
    && (n in after <==> before[n].nRefCount > 1)
    && (n in after ==> after[n] == before[n].(nRandomPos := after[n].nRandomPos, nRefCount := before[n].nRefCount - 1))
  }

  lemma UnlinkedBy(before: InfoMap, mid: InfoMap, after: InfoMap, n: int)
    requires n in before && before[n].nRefCount >= 1 && mid == before[n := before[n].(nRefCount := before[n].nRefCount - 1)]
    requires if mid[n].nRefCount == 0 then SameButPos(mid, after, n) else after == mid
    ensures Unlinked(before, after, n)
  {
  }

  lemma UntriedOnly(before: InfoMap, mid: InfoMap, after: InfoMap, newTable: Table, e: int, u: Slot)
    requires e in before && mid == before[e := before[e].(fInTried := false)]
    requires Only(mid, after, Displaced(mid, newTable, u))
    ensures Only(before, after, Displaced(before, newTable, u))
  {
    assert Only(before, mid, {});
    OnlyTrans(before, mid, after, Displaced(mid, newTable, u));
  }

  lemma TriedOnly(before: InfoMap, mid: InfoMap, after: InfoMap, n: int, lost: set<int>)
    requires Only(before, mid, lost) && n in mid && after == mid[n := mid[n].(fInTried := true)]
    ensures Only(before, after, lost)
  {
    OnlyThen(before, mid, after, lost);
  }

  lemma ClearedOnly(h: Hashes, before: InfoMap, newTable: Table, s: Slot, after: InfoMap)
    requires NewOk(h, before, newTable) && Cleared(before, newTable, s, after)
    ensures Only(before, after, Displaced(before, newTable, s))
  {
    if s in newTable { assert s in SlotsOf(newTable, newTable[s]); }
  }

  ghost function Without(table: Table, n: int): Table {
    map s | s in table && table[s] != n :: table[s]
  }

  /** The new table once entry `n` has left it and the occupant of tried slot `s` is back. */
  ghost function RoomTable(h: Hashes, infos: InfoMap, tried: Table, newTable: Table, n: int, s: Slot): Table {
    if s in tried && tried[s] in infos then
      Without(newTable, n)[h.NewSlot(infos[tried[s]].service, infos[tried[s]].source) := tried[s]]
    else
      Without(newTable, n)
  }

  /** The entry, if any, that the returning occupant of tried slot `s` pushes out. */
  ghost function RoomLost(h: Hashes, infos: InfoMap, tried: Table, newTable: Table, n: int, s: Slot): set<int> {
    if s in tried && tried[s] in infos then
      Displaced(infos, Without(newTable, n), h.NewSlot(infos[tried[s]].service, infos[tried[s]].source))
    else
      {}
  }

  lemma SameRoom(h: Hashes, infos: InfoMap, after: InfoMap, tried: Table, newTable: Table, n: int, s: Slot)
    requires n in infos && after == infos[n := infos[n].(nRefCount := 0)] && s in tried && tried[s] in infos
    ensures RoomLost(h, infos, tried, newTable, n, s) ==
            Displaced(after, Without(newTable, n), h.NewSlot(after[tried[s]].service, after[tried[s]].source))
  {
  }

  /** What moving entry `n` to its tried slot does to the entries and the new table. */
  ghost predicate Promoted(h: Hashes, infos: InfoMap, tried: Table, newTable: Table, n: int, after: InfoMap, newAfter: Table)
    requires n in infos
  {
    var s := h.TriedSlot(infos[n].service);
    Only(infos, after, RoomLost(h, infos, tried, newTable, n, s)) && newAfter == RoomTable(h, infos, tried, newTable, n, s)
  }

  /** The same once the success at `nTime` is recorded. */
  ghost predicate PromotedGood(h: Hashes, infos: InfoMap, tried: Table, newTable: Table, n: int, nTime: int, after: InfoMap, newAfter: Table) {
    n in infos && Promoted(h, infos[n := Succeeded(infos[n], nTime)], tried, newTable, n, after, newAfter)
  }

  /** An address that Add_ has not known before is known afterwards exactly if its slot was
      free or could be taken from its holder; the result of Add_ does not tell. */
  lemma AddedIff(h: Hashes, infos: InfoMap, newTable: Table, mapAddr: map<NetAddr, int>, n: int, info: Info, s: Slot, now: int,
                 after: InfoMap, newAfter: Table, addrAfter: map<NetAddr, int>)
    requires NewOk(h, infos, newTable) && AddrOk(infos, mapAddr) && AddrOk(after, addrAfter)
    requires n !in infos && info.nRefCount == 0 && info.service.ip !in mapAddr
    requires PlacedAs(h, infos[n := info], newTable, n, s, now, after, newAfter)
    ensures info.service.ip in addrAfter <==> CanTake(infos, newTable, s, now)
    ensures info.service.ip in addrAfter ==> addrAfter[info.service.ip] == n
  {
    var with := infos[n := info];
    var ip := info.service.ip;
    assert n in after <==> CanTake(infos, newTable, s, now);
    if ip in addrAfter {
      var m := addrAfter[ip];
      assert m in after && SameData(with[m], after[m]);
    }
  }

  /** Taking the entry in tried slot `s` out of the tried table. */
  lemma UntryKeeps(h: Hashes, infos: InfoMap, mapAddr: map<NetAddr, int>, vRandom: seq<int>, tried: Table, newTable: Table,
                   n: int, s: Slot)
    requires RandomOk(infos, vRandom) && AddrOk(infos, mapAddr) && TriedOk(h, infos, tried) && NewOk(h, infos, newTable)
    requires StatusOk(infos, {n}) && s in tried
    ensures var e := tried[s]; var after := infos[e := infos[e].(fInTried := false)];
            && RandomOk(after, vRandom) && AddrOk(after, mapAddr) && TriedOk(h, after, tried - {s}) && NewOk(h, after, newTable)
            && StatusOk(after, {n, e})
            && |TriedIds(after)| == |TriedIds(infos)| - 1 && |NewIds(after)| == |NewIds(infos)| + 1
  {
    var e := tried[s];
    var after := infos[e := infos[e].(fInTried := false)];
    assert TriedIds(after) == TriedIds(infos) - {e};
    assert NewIds(after) == NewIds(infos) + {e};
    var rest := tried - {s};
    forall t | t in rest ensures rest[t] in after && after[rest[t]].fInTried && t == h.TriedSlot(after[rest[t]].service) {
      assert t in tried && tried[t] in infos && t == h.TriedSlot(infos[tried[t]].service);
      assert tried[t] != e;
    }
    forall m | m in after && after[m].fInTried ensures TriedIn(h, after[m], m, rest) {
      assert m != e && TriedIn(h, infos[m], m, tried);
    }
  }

  /** Putting a floating entry into its empty tried slot. */
  lemma TryKeeps(h: Hashes, infos: InfoMap, mapAddr: map<NetAddr, int>, vRandom: seq<int>, tried: Table, newTable: Table, n: int)
    requires RandomOk(infos, vRandom) && AddrOk(infos, mapAddr) && TriedOk(h, infos, tried) && NewOk(h, infos, newTable)
    requires StatusOk(infos, {n}) && h.TriedSlot(infos[n].service) !in tried
    ensures var after := infos[n := infos[n].(fInTried := true)];
            && RandomOk(after, vRandom) && AddrOk(after, mapAddr)
            && TriedOk(h, after, tried[h.TriedSlot(infos[n].service) := n]) && NewOk(h, after, newTable)
            && StatusOk(after, {})
            && |TriedIds(after)| == |TriedIds(infos)| + 1 && |NewIds(after)| == |NewIds(infos)| - 1
  {
    var after := infos[n := infos[n].(fInTried := true)];
    assert TriedIds(after) == TriedIds(infos) + {n};
    assert NewIds(after) == NewIds(infos) - {n};
  }

  /** Giving an entry without references the empty slot `s` of the new table. */
  lemma LinkKeeps(h: Hashes, infos: InfoMap, vRandom: seq<int>, mapAddr: map<NetAddr, int>, tried: Table, newTable: Table,
                  e: int, s: Slot, nIdCount: int)
    requires RandomOk(infos, vRandom) && AddrOk(infos, mapAddr) && TriedOk(h, infos, tried) && NewOk(h, infos, newTable)
    requires IdsOk(infos, nIdCount)
    requires e in infos && NewSlotFits(h, infos[e], s) && s !in newTable
    ensures var after := infos[e := infos[e].(nRefCount := infos[e].nRefCount + 1)];
            && RandomOk(after, vRandom) && AddrOk(after, mapAddr) && TriedOk(h, after, tried) && NewOk(h, after, newTable[s := e])
            && IdsOk(after, nIdCount)
            && TriedIds(after) == TriedIds(infos) && NewIds(after) == NewIds(infos)
  {
    var info := infos[e].(nRefCount := infos[e].nRefCount + 1);
    var after := infos[e := info];
    TweakKeeps(h, infos, e, info, vRandom, mapAddr, tried, nIdCount);
    RefKeeps(h, infos, newTable, e, s);
  }

  lemma RefKeeps(h: Hashes, infos: InfoMap, newTable: Table, e: int, s: Slot)
    requires NewOk(h, infos, newTable) && e in infos && NewSlotFits(h, infos[e], s) && s !in newTable
    ensures NewOk(h, infos[e := infos[e].(nRefCount := infos[e].nRefCount + 1)], newTable[s := e])
  {
    var after := infos[e := infos[e].(nRefCount := infos[e].nRefCount + 1)];
    var table := newTable[s := e];
    forall m | m in after ensures after[m].nRefCount == |SlotsOf(table, m)| {
      SlotsOfUpdate(newTable, m, e, s);
    }
    forall t | t in table ensures table[t] in after && NewSlotFits(h, after[table[t]], t) {
      if t != s { assert t in newTable && newTable[t] in infos; }
    }
  }

  lemma SlotsOfUpdate(table: Table, m: int, e: int, s: Slot)
    requires s !in table
    ensures |SlotsOf(table[s := e], m)| == |SlotsOf(table, m)| + if m == e then 1 else 0
  {
    var after := SlotsOf(table[s := e], m);
    assert s !in SlotsOf(table, m);
    forall t ensures t in after <==> t in SlotsOf(table, m) || (m == e && t == s) {
      if t != s { assert t in table[s := e] <==> t in table; }
    }
    if m == e {
      assert after == SlotsOf(table, m) + {s};
    } else {
      assert after == SlotsOf(table, m);
    }
  }

  /** Changing an entry without touching its address, table or position. */
  lemma TweakKeeps(h: Hashes, infos: InfoMap, n: int, info: Info, vRandom: seq<int>, mapAddr: map<NetAddr, int>,
                   tried: Table, nIdCount: int)
    requires n in infos && info.service == infos[n].service && info.nRandomPos == infos[n].nRandomPos && info.fInTried == infos[n].fInTried
    requires RandomOk(infos, vRandom) && AddrOk(infos, mapAddr) && TriedOk(h, infos, tried)
    requires IdsOk(infos, nIdCount)
    ensures var after := infos[n := info];
            && RandomOk(after, vRandom) && AddrOk(after, mapAddr) && TriedOk(h, after, tried)
            && IdsOk(after, nIdCount)
            && TriedIds(after) == TriedIds(infos) && NewIds(after) == NewIds(infos)
  {
    var after := infos[n := info];
    assert TriedIds(after) == TriedIds(infos);
    assert NewIds(after) == NewIds(infos);
  }

  /** Emptying a slot of the new table and dropping one reference of its entry. */
  lemma UnrefKeeps(h: Hashes, infos: InfoMap, newTable: Table, s: Slot)
    requires NewOk(h, infos, newTable) && s in newTable
    ensures var n := newTable[s];
            NewOk(h, infos[n := infos[n].(nRefCount := infos[n].nRefCount - 1)], newTable - {s})
  {
    var n := newTable[s];
    var infos' := infos[n := infos[n].(nRefCount := infos[n].nRefCount - 1)];
    var rest := newTable - {s};
    forall m | m in infos' ensures infos'[m].nRefCount == |SlotsOf(rest, m)| {
      assert SlotsOf(rest, m) == SlotsOf(newTable, m) - {s};
      if m != n { assert s !in SlotsOf(newTable, m); } else { assert s in SlotsOf(newTable, m); }
    }
    forall t | t in rest ensures rest[t] in infos' && NewSlotFits(h, infos'[rest[t]], t) {
      assert t in newTable && newTable[t] in infos;
    }
  }

  /** Removing a floating entry keeps the tables. */
  lemma DeleteKeeps(h: Hashes, before: InfoMap, after: InfoMap, mapAddr: map<NetAddr, int>, tried: Table, newTable: Table,
                    floating: set<int>, n: int)
    requires SameButPos(before, after, n) && n in floating
    requires AddrOk(before, mapAddr) && TriedOk(h, before, tried) && NewOk(h, before, newTable) && StatusOk(before, floating)
    ensures AddrOk(after, mapAddr - {before[n].service.ip})
    ensures TriedOk(h, after, tried) && NewOk(h, after, newTable) && StatusOk(after, floating - {n})
  {
    assert SlotsOf(newTable, n) == {};
    forall s | s in newTable ensures newTable[s] in after && NewSlotFits(h, after[newTable[s]], s) {
      assert s !in SlotsOf(newTable, n);
      assert newTable[s] in before && newTable[s] != n;
    }
    forall s | s in tried ensures tried[s] in after && after[tried[s]].fInTried && s == h.TriedSlot(after[tried[s]].service) {
      assert tried[s] in before && tried[s] != n;
    }
    var rest := mapAddr - {before[n].service.ip};
    forall a | a in rest ensures rest[a] in after && after[rest[a]].service.ip == a {
      assert a in mapAddr && mapAddr[a] in before && mapAddr[a] != n;
    }
  }

  lemma DeleteCounts(before: InfoMap, after: InfoMap, n: int)
    requires n in before && !before[n].fInTried && SameButPos(before, after, n)
    ensures TriedIds(after) == TriedIds(before)
    ensures |NewIds(after)| == |NewIds(before)| - 1
  {
    forall x ensures x in TriedIds(after) <==> x in TriedIds(before) {
      assert x in after <==> x in before && x != n;
    }
    forall x ensures x in NewIds(after) <==> x in NewIds(before) && x != n {
      assert x in after <==> x in before && x != n;
    }
    assert NewIds(after) == NewIds(before) - {n};
  }

  // ---------- Check_ ----------

  /** The structural conditions of Check_, as that function tests them: codes -7, -2, -3, -4,
      -5, -14, -9, -10, -11, -17, -18, -12, -19, -13 and -15. */
  ghost predicate CheckPasses(h: Hashes, infos: InfoMap, mapAddr: map<NetAddr, int>, vRandom: seq<int>, nTried: int, nNew: int,
                              tried: Table, newTable: Table)
  {
    && |vRandom| == nTried + nNew
    && (forall n | n in infos :: EntryPasses(infos[n], n, mapAddr, vRandom))
    && |TriedIds(infos)| == nTried && |NewIds(infos)| == nNew
    && (forall s | s in tried :: tried[s] in TriedIds(infos) && s == h.TriedSlot(infos[tried[s]].service))
    && (forall s | s in newTable :: newTable[s] in NewIds(infos) && s.pos == h.Position(infos[newTable[s]].service, true, s.bucket))
    && (forall n | n in TriedIds(infos) :: |SlotsOf(tried, n)| == 1)
    && (forall n | n in NewIds(infos) :: |SlotsOf(newTable, n)| == infos[n].nRefCount)
  }

  ghost predicate EntryPasses(info: Info, n: int, mapAddr: map<NetAddr, int>, vRandom: seq<int>) {
    && (info.fInTried ==> info.nRefCount == 0)
    && (!info.fInTried ==> 0 < info.nRefCount <= NEW_BUCKETS_PER_ADDRESS)
    && info.service.ip in mapAddr && mapAddr[info.service.ip] == n
    && 0 <= info.nRandomPos < |vRandom| && vRandom[info.nRandomPos] == n
  }

  lemma {:induction false} DistinctLength(s: seq<int>)
    requires forall j, k | 0 <= j < k < |s| :: s[j] != s[k]
    ensures |set x | x in s| == |s|
    decreases |s|
  {
    if s != [] {
      var last := |s| - 1;
      DistinctLength(s[..last]);
      assert (set x | x in s) == (set x | x in s[..last]) + {s[last]};
      assert s[last] !in s[..last];
    } else {
      assert (set x | x in s) == {};
    }
  }

  lemma AllCounted(infos: InfoMap, vRandom: seq<int>)
    requires RandomOk(infos, vRandom)
    ensures |vRandom| == |TriedIds(infos)| + |NewIds(infos)|
  {
    forall j, k | 0 <= j < k < |vRandom| ensures vRandom[j] != vRandom[k] {
      assert infos[vRandom[j]].nRandomPos == j && infos[vRandom[k]].nRandomPos == k;
    }
    DistinctLength(vRandom);
    var all := set x | x in vRandom;
    forall n ensures n in all <==> n in TriedIds(infos) + NewIds(infos) {
      if n in infos { assert vRandom[infos[n].nRandomPos] == n; }
    }
    assert all == TriedIds(infos) + NewIds(infos);
    assert TriedIds(infos) !! NewIds(infos);
  }

  lemma OneTriedSlot(h: Hashes, infos: InfoMap, tried: Table, n: int)
    requires TriedOk(h, infos, tried) && n in TriedIds(infos)
    ensures |SlotsOf(tried, n)| == 1
  {
    var s := h.TriedSlot(infos[n].service);
    assert TriedIn(h, infos[n], n, tried);
    assert SlotsOf(tried, n) == {s};
  }

  /** The invariant is at least what Check_ tests. */
  lemma ValidPassesCheck(h: Hashes, infos: InfoMap, mapAddr: map<NetAddr, int>, vRandom: seq<int>, nTried: int, nNew: int,
                         tried: Table, newTable: Table)
    requires RandomOk(infos, vRandom) && AddrOk(infos, mapAddr) && TriedOk(h, infos, tried) && NewOk(h, infos, newTable)
    requires StatusOk(infos, {}) && CountsOk(infos, nTried, nNew, 0)
    ensures CheckPasses(h, infos, mapAddr, vRandom, nTried, nNew, tried, newTable)
  {
    AllCounted(infos, vRandom);
    forall n | n in TriedIds(infos) ensures |SlotsOf(tried, n)| == 1 {
      OneTriedSlot(h, infos, tried, n);
    }
    forall s | s in newTable ensures newTable[s] in NewIds(infos) && NewSlotFits(h, infos[newTable[s]], s) {
      assert s in SlotsOf(newTable, newTable[s]);
    }
  }

  // ---------- runs ----------

  datatype Op =
    | OpAdd(addr: Address, source: NetAddr, penalty: int, now: int, rnd: nat)
    | OpGood(service: Service, testBeforeEvict: bool, now: int, rnd: nat)
    | OpAttempt(service: Service, countFailure: bool, now: int)
    | OpConnected(service: Service, now: int)
    | OpSetServices(service: Service, services: set<nat>)
    | OpGetAddr(maxAddresses: nat, maxPct: nat, now: int, draws: nat -> nat)
    | OpResolve(clock: int -> Readings, buckets: int -> nat)
    | OpSelect

  /** The clock shows a positive time where the operation records it. */
  ghost predicate Timely(op: Op) {
    match op
    case OpGood(_, _, now, _) => now > 0
    case OpAttempt(_, _, now) => now >= 0
    case OpResolve(clock, _) => forall id :: clock(id).good > 0
    case _ => true
  }

  method StepGood(m: Manager, service: Service, testBeforeEvict: bool, now: int, rnd: nat)
    requires m.Valid()
    modifies m
    ensures m.Valid() && (old(TimesOk(m.Now())) && now > 0 ==> TimesOk(m.Now()))
  {
    ghost var v := m.Now();
    var r := m.Good(service, testBeforeEvict, now, rnd);
    if TimesOk(v) && now > 0 && (r == Moved || r == AlreadyTried || r == Collision) {
      GoodTimes(m.h, v, old(m.mapAddr)[service.ip], now, m.Now(), r == Moved);
    }
  }

  lemma GoodTimes(h: Hashes, v: View, n: int, nTime: int, w: View, moved: bool)
    requires TimesOk(v) && nTime > 0 && n in v.infos
    requires if moved then PromotedGood(h, v.infos, v.tried, v.newTable, n, nTime, w.infos, w.newTable)
                           && w.tried == v.tried[h.TriedSlot(v.infos[n].service) := n]
             else w.infos == v.infos[n := Succeeded(v.infos[n], nTime)] && w.tried == v.tried
    ensures TimesOk(w)
  {
    if moved { PromotedTimes(h, v, n, nTime, w); }
  }

  method StepAdd(m: Manager, addr: Address, source: NetAddr, penalty: int, now: int, rnd: nat)
    requires m.Valid()
    modifies m
    ensures m.Valid() && (old(TimesOk(m.Now())) ==> TimesOk(m.Now()))
  {
    ghost var v, ip := m.Now(), addr.service.ip;
    ghost var pen := Penalty(addr, source, penalty);
    var isNew := m.Add(addr, source, penalty, now, rnd);
    if TimesOk(v) && m.h.routable(ip) {
      if isNew {
        AddedTimes(m.h, v, old(m.nIdCount), Penalized(addr, source, |old(m.vRandom)|, pen), m.h.NewSlot(addr.service, source), now, m.Now());
      } else {
        var n := old(m.mapAddr)[ip];
        var info := Refreshed(v.infos[n], addr, pen, now);
        if Another(info, addr, rnd) {
          AddedTimes(m.h, v, n, info, m.h.NewSlot(info.service, source), now, m.Now());
        }
      }
    }
  }

  method StepResolve(m: Manager, clock: int -> Readings, rnd: int -> nat)
    requires m.Valid()
    modifies m
    ensures m.Valid() && (old(TimesOk(m.Now())) && (forall id :: clock(id).good > 0) ==> TimesOk(m.Now()))
  {
    var _, order, views := m.ResolveCollisions(clock, rnd);
    if TimesOk(views[0]) && forall id :: clock(id).good > 0 {
      SettledTimes(m.h, order, views, clock, m.collisions, |order|);
    }
  }

  method StepAttempt(m: Manager, service: Service, countFailure: bool, now: int)
    requires m.Valid()
    modifies m
    ensures m.Valid() && (old(TimesOk(m.Now())) && now >= 0 ==> TimesOk(m.Now()))
  {
    ghost var v := m.Now();
    m.Attempt(service, countFailure, now);
    if TimesOk(v) && now >= 0 { StatsTimes(v, m.Now()); }
  }

  method StepConnected(m: Manager, service: Service, now: int)
    requires m.Valid()
    modifies m
    ensures m.Valid() && (old(TimesOk(m.Now())) ==> TimesOk(m.Now()))
  {
    ghost var v := m.Now();
    m.Connected(service, now);
    if TimesOk(v) { StatsTimes(v, m.Now()); }
  }

  method StepServices(m: Manager, service: Service, services: set<nat>)
    requires m.Valid()
    modifies m
    ensures m.Valid() && (old(TimesOk(m.Now())) ==> TimesOk(m.Now()))
  {
    ghost var v := m.Now();
    m.SetServices(service, services);
    if TimesOk(v) { StatsTimes(v, m.Now()); }
  }

  method StepGetAddr(m: Manager, maxAddresses: nat, maxPct: nat, now: int, draws: nat -> nat)
    requires m.Valid()
    modifies m
    ensures m.Valid() && (old(TimesOk(m.Now())) ==> TimesOk(m.Now()))
  {
    ghost var v := m.Now();
    var _, _ := m.GetAddr(maxAddresses, maxPct, now, draws);
    if TimesOk(v) {
      assert m.mapInfo.Keys == v.infos.Keys by {
        forall n ensures n in m.mapInfo <==> n in v.infos {}
      }
      StatsTimes(v, m.Now());
    }
  }

  method Step(m: Manager, op: Op)
    requires m.Valid()
    modifies m
    ensures m.Valid() && (old(TimesOk(m.Now())) && Timely(op) ==> TimesOk(m.Now()))
  {
    match op
    case OpAdd(addr, source, penalty, now, rnd) => StepAdd(m, addr, source, penalty, now, rnd);
    case OpGood(service, test, now, rnd) => StepGood(m, service, test, now, rnd);
    case OpAttempt(service, count, now) => StepAttempt(m, service, count, now);
    case OpConnected(service, now) => StepConnected(m, service, now);
    case OpSetServices(service, services) => StepServices(m, service, services);
    case OpGetAddr(maxAddresses, maxPct, now, draws) => StepGetAddr(m, maxAddresses, maxPct, now, draws);
    case OpResolve(clock, buckets) => StepResolve(m, clock, buckets);
    case OpSelect => var _, _ := m.SelectTriedCollision();
  }

  // Every run from an empty manager ends in a state that passes the structural tests of Check_,
  // and with a clock that shows positive times also the tests of the recorded times.
  method Run(h: Hashes, ops: seq<Op>) returns (m: Manager)
    ensures m.Valid() && m.h == h
    ensures CheckPasses(h, m.mapInfo, m.mapAddr, m.vRandom, m.nTried, m.nNew, m.vvTried, m.vvNew)
    ensures (forall i | 0 <= i < |ops| :: Timely(ops[i])) ==> TimesPass(m.mapInfo)
  {
    m := new Manager(h);
    for i := 0 to |ops|
      invariant m.Valid() && fresh(m) && m.h == h
      invariant (forall j | 0 <= j < i :: Timely(ops[j])) ==> TimesOk(m.Now())
    {
      Step(m, ops[i]);
    }
    ValidPassesCheck(h, m.mapInfo, m.mapAddr, m.vRandom, m.nTried, m.nNew, m.vvTried, m.vvNew);
    if TimesOk(m.Now()) { TimesOkPasses(h, m.Now()); }
  }

  /** Codes -1, -6 and -8 of Check_. */
  ghost predicate TimesPass(infos: InfoMap) {
    forall n | n in infos :: (infos[n].fInTried ==> infos[n].nLastSuccess != 0) && infos[n].nLastTry >= 0 && infos[n].nLastSuccess >= 0
  }

  lemma TimesOkPasses(h: Hashes, v: View)
    requires TimesOk(v) && TriedOk(h, v.infos, v.tried)
    ensures TimesPass(v.infos)
  {
    forall n | n in v.infos && v.infos[n].fInTried ensures v.infos[n].nLastSuccess != 0 {
      assert TriedIn(h, v.infos[n], n, v.tried);
    }
  }
}
