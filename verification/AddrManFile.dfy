/** Writing the address manager to peers.dat and reading it back (src/addrman.h, Serialize
    and Unserialize), with the same AS map or another one.  The stream is modelled by the values
    it carries. */
module AddrManFile {
  import opened AddrMan
  import Sets

  /** The fields of an entry that are written out; the others are memory only. */
  datatype Record = Record(service: Service, nTime: int, nServices: set<nat>, source: NetAddr, nLastSuccess: int, nAttempts: int)

  const V2_ASMAP := 2
  const FILE_FORMAT := 3
  const INCOMPATIBILITY_BASE := 32

  /** The key is part of the hashes, and an AS map is known by the hash of its contents. */
  datatype Stream = Stream(format: nat, compat: int, newInfos: seq<Record>, triedInfos: seq<Record>, buckets: seq<seq<int>>, asmap: nat)

  function RecordOf(i: Info): Record {
    Record(i.service, i.nTime, i.nServices, i.source, i.nLastSuccess, i.nAttempts)
  }

  function Loaded(r: Record, pos: int, tried: bool): Info {
    Info(r.service, r.nTime, r.nServices, r.source, 0, 0, r.nLastSuccess, r.nAttempts, 0, tried, pos)
  }

  // ---------- Serialize ----------

  /** `ids` lists the members of `wanted` once each, and `records` what is written for them. */
  ghost predicate Lists(infos: InfoMap, wanted: set<int>, ids: seq<int>, records: seq<Record>) {
    && |ids| == |records| == |wanted|
    && (forall k | 0 <= k < |ids| :: ids[k] in wanted && ids[k] in infos && records[k] == RecordOf(infos[ids[k]]))
    && (forall j, k | 0 <= j < k < |ids| :: ids[j] < ids[k])
    && (forall n | n in wanted :: n in ids)
  }

  ghost function Below(s: set<int>, bound: int): set<int> {
    set n | n in s && n < bound
  }

  lemma BelowStep(s: set<int>, n: int)
    ensures Below(s, n + 1) == if n in s then Below(s, n) + {n} else Below(s, n)
    ensures n !in Below(s, n)
  {
  }

  lemma BelowFewer(s: set<int>, n: int)
    requires n in s
    ensures |Below(s, n)| < |s|
  {
    assert n !in Below(s, n);
    Sets.SubsetSize(Below(s, n), s - {n});
  }

  lemma ListsStep(infos: InfoMap, wanted: set<int>, n: int, ids: seq<int>, records: seq<Record>)
    requires Lists(infos, Below(wanted, n), ids, records)
    requires n in wanted ==> n in infos
    ensures if n in wanted then Lists(infos, Below(wanted, n + 1), ids + [n], records + [RecordOf(infos[n])])
            else Lists(infos, Below(wanted, n + 1), ids, records)
  {
    BelowStep(wanted, n);
  }

  // Serialize's loop over the new entries, which also numbers them.
  method WriteNew(infos: InfoMap, nIdCount: int, nNew: int) returns (records: seq<Record>, unkIds: map<int, int>, ghost ids: seq<int>)
    requires IdsOk(infos, nIdCount) && StatusOk(infos, {}) && nNew == |NewIds(infos)|
    ensures Lists(infos, NewIds(infos), ids, records)
    ensures forall k | 0 <= k < |ids| :: ids[k] in unkIds && unkIds[ids[k]] == k
  {
    records, unkIds, ids := [], map[], [];
    var nIds := 0;
    for n := 0 to nIdCount
      invariant nIds == |records|
      invariant Lists(infos, Below(NewIds(infos), n), ids, records)
      invariant forall k | 0 <= k < |ids| :: ids[k] in unkIds && unkIds[ids[k]] == k
    {
      ListsStep(infos, NewIds(infos), n, ids, records);
      if n in infos {
        unkIds := unkIds[n := nIds];
        if infos[n].nRefCount != 0 {
          BelowFewer(NewIds(infos), n);
          assert nIds != nNew;
          records, ids := records + [RecordOf(infos[n])], ids + [n];
          nIds := nIds + 1;
        }
      }
    }
    assert Below(NewIds(infos), nIdCount) == NewIds(infos);
  }

  method WriteTried(infos: InfoMap, nIdCount: int, nTried: int) returns (records: seq<Record>, ghost ids: seq<int>)
    requires IdsOk(infos, nIdCount) && nTried == |TriedIds(infos)|
    ensures Lists(infos, TriedIds(infos), ids, records)
  {
    records, ids := [], [];
    for n := 0 to nIdCount
      invariant Lists(infos, Below(TriedIds(infos), n), ids, records)
    {
      ListsStep(infos, TriedIds(infos), n, ids, records);
      if n in infos && infos[n].fInTried {
        BelowFewer(TriedIds(infos), n);
        assert |records| != nTried;
        records, ids := records + [RecordOf(infos[n])], ids + [n];
      }
    }
    assert Below(TriedIds(infos), nIdCount) == TriedIds(infos);
  }

  /** `row` lists the numbers of the entries found in a bucket of the new table. */
  ghost predicate RowOk(h: Hashes, infos: InfoMap, newTable: Table, ids: seq<int>, bucket: nat, row: seq<int>)
    requires forall k | 0 <= k < |ids| :: ids[k] in infos
  {
    && (forall k | 0 <= k < |row| :: 0 <= row[k] < |ids| && FoundIn(h, infos[ids[row[k]]].service, newTable, ids[row[k]], bucket))
    && (forall k | 0 <= k < |ids| && FoundIn(h, infos[ids[k]].service, newTable, ids[k], bucket) :: k in row)
  }

  // Serialize's inner loop: one bucket of the new table.
  method WriteBucket(h: Hashes, infos: InfoMap, newTable: Table, bucket: nat, unkIds: map<int, int>, ghost ids: seq<int>, ghost records: seq<Record>)
    returns (row: seq<int>)
    requires NewOk(h, infos, newTable) && StatusOk(infos, {}) && Lists(infos, NewIds(infos), ids, records)
    requires forall k | 0 <= k < |ids| :: ids[k] in unkIds && unkIds[ids[k]] == k
    ensures RowOk(h, infos, newTable, ids, bucket, row)
  {
    row := [];
    for i := 0 to BUCKET_SIZE
      invariant forall k | 0 <= k < |row| :: 0 <= row[k] < |ids| && FoundIn(h, infos[ids[row[k]]].service, newTable, ids[row[k]], bucket)
      invariant forall p | 0 <= p < i && Slot(bucket, p) in newTable :: newTable[Slot(bucket, p)] in unkIds && unkIds[newTable[Slot(bucket, p)]] in row
    {
      if Slot(bucket, i) in newTable {
        var n := newTable[Slot(bucket, i)];
        OccupantIsNew(h, infos, newTable, Slot(bucket, i));
        ghost var k :| 0 <= k < |ids| && ids[k] == n;
        assert unkIds[ids[k]] == k;
        row := row + [unkIds[n]];
      }
    }
    forall k | 0 <= k < |ids| && FoundIn(h, infos[ids[k]].service, newTable, ids[k], bucket) ensures k in row {
      var p := h.Position(infos[ids[k]].service, true, bucket);
      assert Slot(bucket, p) in newTable && unkIds[ids[k]] == k;
    }
  }

  lemma OccupantIsNew(h: Hashes, infos: InfoMap, newTable: Table, s: Slot)
    requires NewOk(h, infos, newTable) && StatusOk(infos, {}) && s in newTable
    ensures newTable[s] in NewIds(infos)
    ensures FoundIn(h, infos[newTable[s]].service, newTable, newTable[s], s.bucket)
  {
    assert s in SlotsOf(newTable, newTable[s]);
    assert NewSlotFits(h, infos[newTable[s]], s);
  }

  /** The stream says all that is needed about a manager's state. */
  ghost predicate Describes(st: Stream, h: Hashes, infos: InfoMap, newTable: Table, newIds: seq<int>, triedIds: seq<int>) {
    && st.format == FILE_FORMAT && st.compat == INCOMPATIBILITY_BASE + FILE_FORMAT
    && Lists(infos, NewIds(infos), newIds, st.newInfos) && Lists(infos, TriedIds(infos), triedIds, st.triedInfos)
    && |st.buckets| == NEW_BUCKET_COUNT
    && forall b | 0 <= b < NEW_BUCKET_COUNT :: RowOk(h, infos, newTable, newIds, b, st.buckets[b])
  }

  method Serialize(m: Manager, asmap: nat) returns (st: Stream, ghost newIds: seq<int>, ghost triedIds: seq<int>)
    requires m.Valid()
    ensures Describes(st, m.h, m.mapInfo, m.vvNew, newIds, triedIds) && st.asmap == asmap
  {
    var newInfos, unkIds, triedInfos;
    newInfos, unkIds, newIds := WriteNew(m.mapInfo, m.nIdCount, m.nNew);
    triedInfos, triedIds := WriteTried(m.mapInfo, m.nIdCount, m.nTried);
    var buckets: seq<seq<int>> := [];
    for b := 0 to NEW_BUCKET_COUNT
      invariant |buckets| == b
      invariant forall c | 0 <= c < b :: RowOk(m.h, m.mapInfo, m.vvNew, newIds, c, buckets[c])
    {
      var row := WriteBucket(m.h, m.mapInfo, m.vvNew, b, unkIds, newIds, newInfos);
      buckets := buckets + [row];
    }
    st := Stream(FILE_FORMAT, INCOMPATIBILITY_BASE + FILE_FORMAT, newInfos, triedInfos, buckets, asmap);
  }

  // ---------- Unserialize: the entries ----------

  ghost function Records(st: Stream): seq<Record> {
    st.newInfos + st.triedInfos
  }

  ghost predicate OwnAddresses(records: seq<Record>) {
    forall j, k | 0 <= j < k < |records| :: records[j].service.ip != records[k].service.ip
  }

  ghost predicate Rising(src: seq<nat>, bound: nat) {
    && (forall n | 0 <= n < |src| :: src[n] < bound)
    && (forall j, k | 0 <= j < k < |src| :: src[j] < src[k])
  }

  /** Entry n was read from record src[n], and the first nNew records are of the new table. */
  ghost predicate ReadFrom(infos: InfoMap, src: seq<nat>, records: seq<Record>, nNew: nat) {
    && (forall n :: n in infos <==> 0 <= n < |src|)
    && Rising(src, |records|)
    && (forall n | n in infos :: IsEntry(infos[n], records[src[n]], src[n] >= nNew))
  }

  ghost predicate IsEntry(info: Info, record: Record, tried: bool) {
    RecordOf(info) == record && info.fInTried == tried
  }

  /** The address of the next record to be entered is not known yet. */
  lemma AddressIsFree(infos: InfoMap, mapAddr: map<NetAddr, int>, src: seq<nat>, records: seq<Record>, nNew: nat, r: nat)
    requires ReadFrom(infos, src, records, nNew) && AddrOk(infos, mapAddr) && OwnAddresses(records)
    requires r < |records| && Rising(src, r)
    ensures records[r].service.ip !in mapAddr
  {
    forall a | a in mapAddr ensures a != records[r].service.ip {
      var n: int := mapAddr[a];
      assert IsEntry(infos[n], records[src[n]], src[n] >= nNew);
      assert records[src[n]].service.ip != records[r].service.ip;
    }
  }

  /** Reading one more entry. */
  lemma ReadStep(infos: InfoMap, src: seq<nat>, records: seq<Record>, nNew: nat, r: nat, pos: int)
    requires ReadFrom(infos, src, records, nNew) && r < |records| && Rising(src, r)
    ensures ReadFrom(infos[|src| := Loaded(records[r], pos, r >= nNew)], src + [r], records, nNew)
    ensures Rising(src + [r], r + 1)
  {
  }

  ghost predicate IndexesOk(infos: InfoMap, mapAddr: map<NetAddr, int>, vRandom: seq<int>, count: nat) {
    RandomOk(infos, vRandom) && AddrOk(infos, mapAddr) && |vRandom| == count
  }

  ghost predicate Unreferenced(infos: InfoMap) {
    forall n | n in infos :: infos[n].nRefCount == 0
  }

  ghost function Upto(n: nat): seq<nat> {
    seq(n, (i: nat) => i)
  }

  /** The records of the new table are the entries of the same numbers. */
  lemma NewAndTried(src: seq<nat>, bound: nat, nNew: nat, n: nat)
    requires Rising(src, bound) && Upto(nNew) <= src && n < |src|
    ensures n < nNew ==> src[n] == n
    ensures src[n] >= nNew <==> n >= nNew
  {
    if n < nNew {
      assert src[n] == Upto(nNew)[n];
    } else if nNew > 0 {
      assert src[nNew - 1] == Upto(nNew)[nNew - 1];
    }
  }

  // Reads the entries of the new table, as entries 0 to nNew - 1.
  method LoadNew(st: Stream) returns (infos: InfoMap, mapAddr: map<NetAddr, int>, vRandom: seq<int>)
    requires OwnAddresses(Records(st))
    ensures ReadFrom(infos, Upto(|st.newInfos|), Records(st), |st.newInfos|) && Unreferenced(infos)
    ensures IndexesOk(infos, mapAddr, vRandom, |st.newInfos|)
  {
    infos, mapAddr, vRandom := map[], map[], [];
    ghost var records := Records(st);
    for n := 0 to |st.newInfos|
      invariant ReadFrom(infos, Upto(n), records, |st.newInfos|) && Unreferenced(infos)
      invariant IndexesOk(infos, mapAddr, vRandom, n)
    {
      assert records[n] == st.newInfos[n];
      var info := Loaded(st.newInfos[n], |vRandom|, false);
      AddressIsFree(infos, mapAddr, Upto(n), records, |st.newInfos|, n);
      CreateIndexes(infos, mapAddr, vRandom, n, info);
      ReadStep(infos, Upto(n), records, |st.newInfos|, n, |vRandom|);
      assert Upto(n) + [n] == Upto(n + 1);
      infos := infos[n := info];
      mapAddr := mapAddr[info.service.ip := n];
      vRandom := vRandom + [n];
    }
  }

  /** No record before the k-th has its slot in the tried table. */
  ghost predicate FirstInSlot(h: Hashes, records: seq<Record>, k: nat)
    requires k < |records|
  {
    forall j | 0 <= j < k :: h.TriedSlot(records[j].service) != h.TriedSlot(records[k].service)
  }

  /** The records that become entries: those of the new table, and of the first k tried ones
      those that come first in their slots. */
  ghost function Entered(h: Hashes, st: Stream, k: nat): seq<nat>
    requires k <= |st.triedInfos|
  {
    if k == 0 then Upto(|st.newInfos|)
    else if FirstInSlot(h, st.triedInfos, k - 1) then Entered(h, st, k - 1) + [|st.newInfos| + k - 1]
    else Entered(h, st, k - 1)
  }

  lemma EnteredNext(h: Hashes, st: Stream, k: nat)
    requires k < |st.triedInfos|
    ensures Entered(h, st, k + 1) == Entered(h, st, k) + if FirstInSlot(h, st.triedInfos, k) then [|st.newInfos| + k] else []
  {
    assert k + 1 - 1 == k;
  }

  lemma LoadTriedKeeps(h: Hashes, infos: InfoMap, tried: Table, n: int, info: Info)
    requires TriedOk(h, infos, tried) && n !in infos && info.fInTried && h.TriedSlot(info.service) !in tried
    ensures TriedOk(h, infos[n := info], tried[h.TriedSlot(info.service) := n])
  {
  }

  /** The slots taken are those of the first k records. */
  ghost predicate SlotsTaken(h: Hashes, records: seq<Record>, tried: Table, k: nat)
    requires k <= |records|
  {
    && (forall j | 0 <= j < k :: h.TriedSlot(records[j].service) in tried)
    && (forall s | s in tried :: exists j | 0 <= j < k :: h.TriedSlot(records[j].service) == s)
  }

  lemma TakenOrFirst(h: Hashes, records: seq<Record>, tried: Table, k: nat)
    requires k < |records| && SlotsTaken(h, records, tried, k)
    ensures FirstInSlot(h, records, k) <==> h.TriedSlot(records[k].service) !in tried
  {
  }

  lemma SlotsStep(h: Hashes, records: seq<Record>, tried: Table, k: nat, n: int)
    requires k < |records| && SlotsTaken(h, records, tried, k)
    ensures FirstInSlot(h, records, k) ==> SlotsTaken(h, records, tried[h.TriedSlot(records[k].service) := n], k + 1)
    ensures !FirstInSlot(h, records, k) ==> SlotsTaken(h, records, tried, k + 1)
  {
    var after := tried[h.TriedSlot(records[k].service) := n];
    forall s | s in after ensures exists j | 0 <= j < k + 1 :: h.TriedSlot(records[j].service) == s {
      if s == h.TriedSlot(records[k].service) {
        assert h.TriedSlot(records[k].service) == s;
      } else {
        var j :| 0 <= j < k && h.TriedSlot(records[j].service) == s;
      }
    }
  }

  /** The state after the first k tried records, when those in `src` have been entered. */
  ghost predicate TriedRead(h: Hashes, st: Stream, k: nat, src: seq<nat>, infos: InfoMap, mapAddr: map<NetAddr, int>, vRandom: seq<int>, tried: Table)
    requires k <= |st.triedInfos|
  {
    && ReadFrom(infos, src, Records(st), |st.newInfos|) && Unreferenced(infos)
    && Rising(src, |st.newInfos| + k) && SlotsTaken(h, st.triedInfos, tried, k)
    && IndexesOk(infos, mapAddr, vRandom, |src|) && TriedOk(h, infos, tried)
  }

  lemma EnterKeeps(h: Hashes, st: Stream, k: nat, src: seq<nat>, infos: InfoMap, mapAddr: map<NetAddr, int>, vRandom: seq<int>, tried: Table, info: Info)
    requires k < |st.triedInfos| && TriedRead(h, st, k, src, infos, mapAddr, vRandom, tried) && OwnAddresses(Records(st))
    requires FirstInSlot(h, st.triedInfos, k) && info == Loaded(st.triedInfos[k], |src|, true)
    ensures TriedRead(h, st, k + 1, src + [|st.newInfos| + k], infos[|src| := info], mapAddr[info.service.ip := |src|], vRandom + [|src|],
                      tried[h.TriedSlot(info.service) := |src|])
  {
    var r, n := |st.newInfos| + k, |src|;
    assert Records(st)[r] == st.triedInfos[k];
    AddressIsFree(infos, mapAddr, src, Records(st), |st.newInfos|, r);
    CreateIndexes(infos, mapAddr, vRandom, n, info);
    ReadStep(infos, src, Records(st), |st.newInfos|, r, n);
    TakenOrFirst(h, st.triedInfos, tried, k);
    LoadTriedKeeps(h, infos, tried, n, info);
    SlotsStep(h, st.triedInfos, tried, k, n);
  }

  lemma LoseKeeps(h: Hashes, st: Stream, k: nat, src: seq<nat>, infos: InfoMap, mapAddr: map<NetAddr, int>, vRandom: seq<int>, tried: Table)
    requires k < |st.triedInfos| && TriedRead(h, st, k, src, infos, mapAddr, vRandom, tried) && !FirstInSlot(h, st.triedInfos, k)
    ensures TriedRead(h, st, k + 1, src, infos, mapAddr, vRandom, tried)
  {
    SlotsStep(h, st.triedInfos, tried, k, 0);
  }

  ghost predicate CountedTo(src: seq<nat>, nNew: nat, k: nat, nIdCount: int, nLost: int) {
    nIdCount == |src| && nIdCount + nLost == nNew + k
  }

  // Reads one tried entry; one whose slot is taken is lost.
  method ReadTried(h: Hashes, st: Stream, k: nat, infosIn: InfoMap, mapAddrIn: map<NetAddr, int>, vRandomIn: seq<int>, triedIn: Table,
                   nIdCountIn: int, nLostIn: int, ghost src: seq<nat>)
    returns (infos: InfoMap, mapAddr: map<NetAddr, int>, vRandom: seq<int>, tried: Table, nIdCount: int, nLost: int)
    requires k < |st.triedInfos| && OwnAddresses(Records(st)) && CountedTo(src, |st.newInfos|, k, nIdCountIn, nLostIn)
    requires src == Entered(h, st, k) && TriedRead(h, st, k, src, infosIn, mapAddrIn, vRandomIn, triedIn)
    ensures TriedRead(h, st, k + 1, Entered(h, st, k + 1), infos, mapAddr, vRandom, tried)
    ensures CountedTo(Entered(h, st, k + 1), |st.newInfos|, k + 1, nIdCount, nLost)
  {
    infos, mapAddr, vRandom, tried, nIdCount, nLost := infosIn, mapAddrIn, vRandomIn, triedIn, nIdCountIn, nLostIn;
    var info := Loaded(st.triedInfos[k], |vRandom|, true);
    var s := h.TriedSlot(info.service);
    TakenOrFirst(h, st.triedInfos, tried, k);
    EnteredNext(h, st, k);
    if s !in tried {
      EnterKeeps(h, st, k, src, infos, mapAddr, vRandom, tried, info);
      vRandom := vRandom + [nIdCount];
      infos := infos[nIdCount := info];
      mapAddr := mapAddr[info.service.ip := nIdCount];
      tried := tried[s := nIdCount];
      nIdCount := nIdCount + 1;
    } else {
      LoseKeeps(h, st, k, src, infos, mapAddr, vRandom, tried);
      nLost := nLost + 1;
    }
  }

  method LoadTried(h: Hashes, st: Stream, infosIn: InfoMap, mapAddrIn: map<NetAddr, int>, vRandomIn: seq<int>)
    returns (infos: InfoMap, mapAddr: map<NetAddr, int>, vRandom: seq<int>, tried: Table, nIdCount: int, nLost: int)
    requires OwnAddresses(Records(st)) && TriedRead(h, st, 0, Entered(h, st, 0), infosIn, mapAddrIn, vRandomIn, map[])
    ensures TriedRead(h, st, |st.triedInfos|, Entered(h, st, |st.triedInfos|), infos, mapAddr, vRandom, tried)
    ensures CountedTo(Entered(h, st, |st.triedInfos|), |st.newInfos|, |st.triedInfos|, nIdCount, nLost)
  {
    infos, mapAddr, vRandom, tried, nIdCount, nLost := infosIn, mapAddrIn, vRandomIn, map[], |st.newInfos|, 0;
    for k := 0 to |st.triedInfos|
      invariant TriedRead(h, st, k, Entered(h, st, k), infos, mapAddr, vRandom, tried)
      invariant CountedTo(Entered(h, st, k), |st.newInfos|, k, nIdCount, nLost)
    {
      infos, mapAddr, vRandom, tried, nIdCount, nLost :=
        ReadTried(h, st, k, infos, mapAddr, vRandom, tried, nIdCount, nLost, Entered(h, st, k));
    }
  }

  // ---------- Unserialize: the buckets ----------

  /** Every number that `row` lists has been given a bucket. */
  ghost predicate Covered(row: seq<int>, nNew: int, toBucket: map<int, nat>) {
    forall i | 0 <= i < |row| && 0 <= row[i] < nNew :: row[i] in toBucket
  }

  /** Of the first `count` buckets, b is the last that lists k. */
  ghost predicate LastWith(buckets: seq<seq<int>>, k: int, b: nat, count: nat)
    requires count <= |buckets|
  {
    b < count && k in buckets[b] && forall c | b < c < count :: k !in buckets[c]
  }

  /** Every number that is listed is mapped to the last bucket listing it. */
  ghost predicate LastBuckets(buckets: seq<seq<int>>, nNew: int, toBucket: map<int, nat>, count: nat)
    requires count <= |buckets|
  {
    && (forall k | k in toBucket :: 0 <= k < nNew && LastWith(buckets, k, toBucket[k], count))
    && (forall b | 0 <= b < count :: Covered(buckets[b], nNew, toBucket))
  }

  // Reads one bucket.
  method ReadBucket(buckets: seq<seq<int>>, nNew: int, toBucketIn: map<int, nat>, b: nat) returns (toBucket: map<int, nat>)
    requires b < |buckets| && LastBuckets(buckets, nNew, toBucketIn, b)
    ensures LastBuckets(buckets, nNew, toBucket, b + 1)
  {
    toBucket := toBucketIn;
    var row := buckets[b];
    for i := 0 to |row|
      invariant forall k | k in toBucket :: 0 <= k < nNew
      invariant forall k | k in toBucket && k in row[..i] :: toBucket[k] == b
      invariant forall k | k in toBucket && k !in row[..i] :: LastWith(buckets, k, toBucket[k], b)
      invariant forall k | k in toBucketIn :: k in toBucket
      invariant Covered(row[..i], nNew, toBucket)
    {
      var k: int := row[i];
      assert row[..i + 1] == row[..i] + [k];
      if 0 <= k < nNew {
        toBucket := toBucket[k := b];
      }
    }
    assert row[..|row|] == row;
    forall k | k in toBucket ensures LastWith(buckets, k, toBucket[k], b + 1) {
      if k !in row {
        assert LastWith(buckets, k, toBucket[k], b);
      }
    }
    forall c | 0 <= c < b ensures Covered(buckets[c], nNew, toBucket) {
      assert Covered(buckets[c], nNew, toBucketIn);
    }
  }

  // Reads which entry was in which bucket.
  method ReadBuckets(buckets: seq<seq<int>>, nNew: int) returns (toBucket: map<int, nat>)
    ensures LastBuckets(buckets, nNew, toBucket, |buckets|)
  {
    toBucket := map[];
    for b := 0 to |buckets|
      invariant LastBuckets(buckets, nNew, toBucket, b)
    {
      toBucket := ReadBucket(buckets, nNew, toBucket, b);
    }
  }

  /** The buckets of the file still mean what they did when it was written. */
  predicate Usable(st: Stream, asmap: nat) {
    st.format >= V2_ASMAP && |st.buckets| == NEW_BUCKET_COUNT && st.asmap == asmap
  }

  function BucketOf(toBucket: map<int, nat>, n: int): nat {
    if n in toBucket then toBucket[n] else 0
  }

  /** Where the next entry goes: to the bucket it was listed in, if that is usable and its
      place there is free, and otherwise to the bucket that its source gives. */
  ghost function Target(h: Hashes, r: Record, bucket: nat, usable: bool, table: Table): Slot {
    var listed := Slot(bucket, h.Position(r.service, true, bucket));
    if usable && listed !in table then listed else h.NewSlot(r.service, r.source)
  }

  /** The new table once the first n entries have had their turns; each finds its target free
      or stays without a slot. */
  ghost function NewTable(h: Hashes, records: seq<Record>, toBucket: map<int, nat>, usable: bool, n: nat): Table
    requires n <= |records|
  {
    if n == 0 then map[]
    else
      Offered(h, records[n - 1], BucketOf(toBucket, n - 1), usable, NewTable(h, records, toBucket, usable, n - 1), n - 1)
  }

  /** The table after entry n has had its turn. */
  ghost function Offered(h: Hashes, r: Record, bucket: nat, usable: bool, table: Table, n: int): Table {
    var s := Target(h, r, bucket, usable, table);
    if s in table then table else table[s := n]
  }

  lemma NewTableNext(h: Hashes, records: seq<Record>, toBucket: map<int, nat>, usable: bool, n: nat)
    requires n < |records|
    ensures NewTable(h, records, toBucket, usable, n + 1) ==
            Offered(h, records[n], BucketOf(toBucket, n), usable, NewTable(h, records, toBucket, usable, n), n)
  {
    assert n + 1 - 1 == n;
  }

  /** The state kept while new entries are given their slots. */
  ghost predicate PlacingOk(h: Hashes, infos: InfoMap, mapAddr: map<NetAddr, int>, vRandom: seq<int>, tried: Table, table: Table) {
    && RandomOk(infos, vRandom) && AddrOk(infos, mapAddr) && TriedOk(h, infos, tried) && NewOk(h, infos, table)
    && IdsOk(infos, |vRandom|)
  }

  /** The first n entries have at most one reference, the others none. */
  ghost predicate OnceBelow(infos: InfoMap, n: int) {
    forall m | m in infos :: 0 <= infos[m].nRefCount <= if m < n then 1 else 0
  }

  // Gives each new entry a slot, if it can.
  method PlaceNew(h: Hashes, st: Stream, infosIn: InfoMap, toBucket: map<int, nat>, usable: bool,
                  ghost mapAddr: map<NetAddr, int>, ghost vRandom: seq<int>, ghost tried: Table, ghost src: seq<nat>)
    returns (infos: InfoMap, table: Table)
    requires PlacingOk(h, infosIn, mapAddr, vRandom, tried, map[]) && Unreferenced(infosIn)
    requires ReadFrom(infosIn, src, Records(st), |st.newInfos|) && Upto(|st.newInfos|) <= src
    requires usable ==> forall k | k in toBucket :: toBucket[k] < NEW_BUCKET_COUNT
    ensures PlacingOk(h, infos, mapAddr, vRandom, tried, table) && ReadFrom(infos, src, Records(st), |st.newInfos|)
    ensures OnceBelow(infos, |st.newInfos|) && table == NewTable(h, st.newInfos, toBucket, usable, |st.newInfos|)
  {
    infos, table := infosIn, map[];
    for n := 0 to |st.newInfos|
      invariant PlacingOk(h, infos, mapAddr, vRandom, tried, table) && ReadFrom(infos, src, Records(st), |st.newInfos|)
      invariant OnceBelow(infos, n) && table == NewTable(h, st.newInfos, toBucket, usable, n)
    {
      NewAndTried(src, |Records(st)|, |st.newInfos|, n);
      NewTableNext(h, st.newInfos, toBucket, usable, n);
      infos, table := PlaceOne(h, st, infos, table, n, BucketOf(toBucket, n), usable, mapAddr, vRandom, tried, src);
    }
  }

  // One entry of that loop.
  method PlaceOne(h: Hashes, st: Stream, infosIn: InfoMap, tableIn: Table, n: nat, bucket: nat, usable: bool,
                  ghost mapAddr: map<NetAddr, int>, ghost vRandom: seq<int>, ghost tried: Table, ghost src: seq<nat>)
    returns (infos: InfoMap, table: Table)
    requires PlacingOk(h, infosIn, mapAddr, vRandom, tried, tableIn) && ReadFrom(infosIn, src, Records(st), |st.newInfos|)
    requires n < |st.newInfos| && n < |src| && src[n] == n && OnceBelow(infosIn, n)
    requires usable ==> bucket < NEW_BUCKET_COUNT
    ensures PlacingOk(h, infos, mapAddr, vRandom, tried, table) && ReadFrom(infos, src, Records(st), |st.newInfos|)
    ensures OnceBelow(infos, n + 1)
    ensures table == Offered(h, st.newInfos[n], bucket, usable, tableIn, n)
  {
    infos, table := infosIn, tableIn;
    var info := infos[n];
    assert IsEntry(info, Records(st)[n], false) && Records(st)[n] == st.newInfos[n];
    var s := Slot(bucket, h.Position(info.service, true, bucket));
    if !(usable && s !in table && info.nRefCount < NEW_BUCKETS_PER_ADDRESS) {
      s := h.NewSlot(info.service, info.source);
    }
    if s !in table {
      PlaceStep(h, infos, mapAddr, vRandom, tried, table, src, Records(st), |st.newInfos|, n, s);
      table := table[s := n];
      infos := infos[n := info.(nRefCount := info.nRefCount + 1)];
    }
  }

  lemma PlaceStep(h: Hashes, infos: InfoMap, mapAddr: map<NetAddr, int>, vRandom: seq<int>, tried: Table, table: Table,
                  src: seq<nat>, records: seq<Record>, nNew: nat, n: nat, s: Slot)
    requires PlacingOk(h, infos, mapAddr, vRandom, tried, table) && ReadFrom(infos, src, records, nNew)
    requires OnceBelow(infos, n) && n in infos && NewSlotFits(h, infos[n], s) && s !in table
    ensures var after := infos[n := infos[n].(nRefCount := infos[n].nRefCount + 1)];
            && PlacingOk(h, after, mapAddr, vRandom, tried, table[s := n]) && ReadFrom(after, src, records, nNew)
            && OnceBelow(after, n + 1)
  {
    LinkKeeps(h, infos, vRandom, mapAddr, tried, table, n, s, |vRandom|);
  }

  // ---------- the size limits ----------

  lemma {:induction false} Covers(ids: set<int>, table: Table)
    requires forall n | n in ids :: SlotsOf(table, n) != {}
    ensures |ids| <= |table.Keys|
    decreases ids
  {
    Sets.HasMember(ids);
    if ids != {} {
      var n :| n in ids;
      assert SlotsOf(table, n) != {};
      var s :| s in SlotsOf(table, n);
      var rest := table - {s};
      forall m | m in ids - {n} ensures SlotsOf(rest, m) != {} {
        assert SlotsOf(table, m) != {};
        var t :| t in SlotsOf(table, m);
        assert t in SlotsOf(rest, m);
      }
      Covers(ids - {n}, rest);
      assert rest.Keys == table.Keys - {s};
    }
  }

  ghost predicate InGrid(slots: set<Slot>, buckets: nat, size: nat) {
    forall s | s in slots :: s.bucket < buckets && s.pos < size
  }

  lemma {:induction false} GridSize(slots: set<Slot>, buckets: nat, size: nat)
    requires InGrid(slots, buckets, size)
    ensures |slots| <= buckets * size
    decreases buckets
  {
    if buckets == 0 {
      assert slots == {};
    } else {
      var row := set s | s in slots && s.bucket == buckets - 1;
      RowSize(row, buckets - 1, size);
      GridSize(slots - row, buckets - 1, size);
      assert slots == (slots - row) + row;
      assert buckets * size == (buckets - 1) * size + size;
    }
  }

  lemma {:induction false} RowSize(row: set<Slot>, bucket: nat, size: nat)
    requires forall s | s in row :: s.bucket == bucket && s.pos < size
    ensures |row| <= size
    decreases size
  {
    if size == 0 {
      assert row == {};
    } else {
      var last := Slot(bucket, size - 1);
      forall s | s in row - {last} ensures s.pos < size - 1 {
        assert s == Slot(bucket, s.pos);
      }
      RowSize(row - {last}, bucket, size - 1);
    }
  }

  lemma WithinLimits(h: Hashes, infos: InfoMap, tried: Table, newTable: Table)
    requires TriedOk(h, infos, tried) && NewOk(h, infos, newTable) && StatusOk(infos, {})
    ensures |NewIds(infos)| <= NEW_BUCKET_COUNT * BUCKET_SIZE
    ensures |TriedIds(infos)| <= TRIED_BUCKET_COUNT * BUCKET_SIZE
  {
    Covers(NewIds(infos), newTable);
    forall s | s in newTable.Keys ensures s.bucket < NEW_BUCKET_COUNT && s.pos < BUCKET_SIZE {
      assert NewSlotFits(h, infos[newTable[s]], s);
    }
    GridSize(newTable.Keys, NEW_BUCKET_COUNT, BUCKET_SIZE);
    forall n | n in TriedIds(infos) ensures SlotsOf(tried, n) != {} {
      assert TriedIn(h, infos[n], n, tried);
      assert h.TriedSlot(infos[n].service) in SlotsOf(tried, n);
    }
    Covers(TriedIds(infos), tried);
    GridSize(tried.Keys, TRIED_BUCKET_COUNT, BUCKET_SIZE);
  }

  lemma {:induction false} IntervalSize(ids: set<int>, lo: int, hi: int)
    requires lo <= hi && forall n :: n in ids <==> lo <= n < hi
    ensures |ids| == hi - lo
    decreases hi - lo
  {
    if lo == hi {
      assert forall n :: n !in ids;
      assert ids == {};
    } else {
      IntervalSize(ids - {hi - 1}, lo, hi - 1);
    }
  }

  // ---------- Unserialize: the whole ----------

  /** New entries that found no slot. */
  ghost function Unplaced(infos: InfoMap): set<int> {
    set n | n in infos && !infos[n].fInTried && infos[n].nRefCount == 0
  }

  lemma LoadedCounts(infos: InfoMap, src: seq<nat>, records: seq<Record>, nNew: nat)
    requires ReadFrom(infos, src, records, nNew) && Upto(nNew) <= src
    ensures |NewIds(infos)| == nNew && |TriedIds(infos)| == |src| - nNew && |infos.Keys| == |src|
  {
    forall n | n in infos ensures infos[n].fInTried <==> n >= nNew {
      assert IsEntry(infos[n], records[src[n]], src[n] >= nNew);
      NewAndTried(src, |records|, nNew, n);
    }
    IntervalSize(NewIds(infos), 0, nNew);
    IntervalSize(TriedIds(infos), nNew, |src|);
    IntervalSize(infos.Keys, 0, |src|);
  }

  lemma LoadedStatus(infos: InfoMap, src: seq<nat>, records: seq<Record>, nNew: nat)
    requires ReadFrom(infos, src, records, nNew) && Upto(nNew) <= src && OnceBelow(infos, nNew)
    ensures StatusOk(infos, Unplaced(infos))
  {
    forall n | n in infos && infos[n].fInTried ensures infos[n].nRefCount == 0 {
      assert IsEntry(infos[n], records[src[n]], src[n] >= nNew);
      NewAndTried(src, |records|, nNew, n);
    }
  }

  lemma {:induction false} NewComeFirst(h: Hashes, st: Stream, k: nat)
    requires k <= |st.triedInfos|
    ensures Upto(|st.newInfos|) <= Entered(h, st, k)
  {
    if k > 0 { NewComeFirst(h, st, k - 1); }
  }

  /** `after` is `before` without the ids in `gone`, apart from positions in vRandom. */
  ghost predicate Pruned(before: InfoMap, after: InfoMap, gone: set<int>) {
    && (forall n :: n in after <==> n in before && n !in gone)
    && (forall n | n in after :: after[n] == before[n].(nRandomPos := after[n].nRandomPos))
  }

  /** The next entry is to be deleted just when it is floating. */
  lemma StillFloating(floating: set<int>, n: int, infos: InfoMap)
    requires StatusOk(infos, floating - Below(floating, n))
    ensures n in floating <==> n in infos && !infos[n].fInTried && infos[n].nRefCount == 0
    ensures if n in floating
            then Below(floating, n + 1) == Below(floating, n) + {n} && |Below(floating, n + 1)| == |Below(floating, n)| + 1
              && floating - Below(floating, n + 1) == floating - Below(floating, n) - {n}
            else Below(floating, n + 1) == Below(floating, n)
  {
    BelowStep(floating, n);
  }

  lemma PrunedOn(first: InfoMap, before: InfoMap, after: InfoMap, gone: set<int>, n: int)
    requires Pruned(first, before, gone) && SameButPos(before, after, n)
    ensures Pruned(first, after, gone + {n})
  {
  }

  // Deletes the new entries that have no reference.
  method Prune(m: Manager, ghost floating: set<int>) returns (nLostUnk: int)
    requires m.Inv(floating, 0) && m.collisions == {}
    modifies m
    ensures m.Valid() && nLostUnk == |floating| && Pruned(old(m.mapInfo), m.mapInfo, floating)
    ensures m.vvNew == old(m.vvNew) && m.vvTried == old(m.vvTried)
  {
    nLostUnk := 0;
    for n := 0 to m.nIdCount
      invariant m.nIdCount == old(m.nIdCount) && m.collisions == {} && nLostUnk == |Below(floating, n)|
      invariant m.vvNew == old(m.vvNew) && m.vvTried == old(m.vvTried)
      invariant m.Inv(floating - Below(floating, n), 0) && Pruned(old(m.mapInfo), m.mapInfo, Below(floating, n))
    {
      ghost var rest, before := floating - Below(floating, n), m.mapInfo;
      StillFloating(floating, n, m.mapInfo);
      if n in m.mapInfo && !m.mapInfo[n].fInTried && m.mapInfo[n].nRefCount == 0 {
        m.Delete(n, rest, 0);
        nLostUnk := nLostUnk + 1;
        PrunedOn(old(m.mapInfo), before, m.mapInfo, Below(floating, n), n);
      }
    }
    assert Below(floating, m.nIdCount) == floating;
    assert floating - floating == {};
  }

  /** The stream is of a kind, or of a size, that is refused. */
  predicate Refused(st: Stream) {
    || (st.compat - INCOMPATIBILITY_BASE) % 256 > FILE_FORMAT
    || |st.newInfos| > NEW_BUCKET_COUNT * BUCKET_SIZE
    || |st.triedInfos| > TRIED_BUCKET_COUNT * BUCKET_SIZE
  }

  ghost predicate HasSlot(table: Table, n: int) {
    SlotsOf(table, n) != {}
  }

  /** The entries read are those with a slot, each from its record. */
  ghost predicate ReadBack(infos: InfoMap, src: seq<nat>, records: seq<Record>, nNew: nat, table: Table) {
    && Rising(src, |records|) && Upto(nNew) <= src
    && (forall n :: n in infos <==> 0 <= n < |src| && (n < nNew ==> HasSlot(table, n)))
    && (forall n | n in infos :: IsEntry(infos[n], records[src[n]], n >= nNew) && infos[n].nRefCount == if n < nNew then 1 else 0)
  }

  lemma PrunedReadBack(h: Hashes, before: InfoMap, after: InfoMap, src: seq<nat>, records: seq<Record>, nNew: nat, table: Table)
    requires ReadFrom(before, src, records, nNew) && Upto(nNew) <= src && OnceBelow(before, nNew) && NewOk(h, before, table)
    requires Pruned(before, after, Unplaced(before))
    ensures ReadBack(after, src, records, nNew, table)
    ensures |after| == |src| - |Unplaced(before)|
  {
    forall n | n in before ensures before[n].fInTried <==> n >= nNew {
      assert IsEntry(before[n], records[src[n]], src[n] >= nNew);
      NewAndTried(src, |records|, nNew, n);
    }
    forall n | n in before ensures n in Unplaced(before) <==> n < nNew && SlotsOf(table, n) == {} {
      assert before[n].nRefCount == |SlotsOf(table, n)|;
    }
    forall n | n in after ensures IsEntry(after[n], records[src[n]], n >= nNew) && after[n].nRefCount == if n < nNew then 1 else 0 {
      assert after[n] == before[n].(nRandomPos := after[n].nRandomPos);
      assert IsEntry(before[n], records[src[n]], src[n] >= nNew);
    }
    LoadedCounts(before, src, records, nNew);
    PrunedSize(before, after, Unplaced(before));
  }

  lemma PrunedSize(before: InfoMap, after: InfoMap, gone: set<int>)
    requires Pruned(before, after, gone) && gone <= before.Keys
    ensures |after| == |before.Keys| - |gone|
  {
    forall n ensures n in after.Keys <==> n in before.Keys - gone {
      assert n in after <==> n in before && n !in gone;
    }
    assert after.Keys == before.Keys - gone;
  }

  // Everything that is read, before it becomes a manager.
  method LoadTables(h: Hashes, st: Stream, asmap: nat)
    returns (infos: InfoMap, mapAddr: map<NetAddr, int>, vRandom: seq<int>, tried: Table, table: Table, nIdCount: int, nLost: int,
             toBucket: map<int, nat>)
    requires OwnAddresses(Records(st))
    ensures PlacingOk(h, infos, mapAddr, vRandom, tried, table) && nIdCount == |vRandom|
    ensures ReadFrom(infos, Entered(h, st, |st.triedInfos|), Records(st), |st.newInfos|) && OnceBelow(infos, |st.newInfos|)
    ensures LastBuckets(st.buckets, |st.newInfos|, toBucket, |st.buckets|)
    ensures table == NewTable(h, st.newInfos, toBucket, Usable(st, asmap), |st.newInfos|)
    ensures |Entered(h, st, |st.triedInfos|)| + nLost == |Records(st)|
  {
    ghost var src := Entered(h, st, |st.triedInfos|);
    NewComeFirst(h, st, |st.triedInfos|);
    infos, mapAddr, vRandom := LoadNew(st);
    infos, mapAddr, vRandom, tried, nIdCount, nLost := LoadTried(h, st, infos, mapAddr, vRandom);
    toBucket := ReadBuckets(st.buckets, |st.newInfos|);
    forall k | k in toBucket ensures toBucket[k] < |st.buckets| {
      assert LastWith(st.buckets, k, toBucket[k], |st.buckets|);
    }
    assert PlacingOk(h, infos, mapAddr, vRandom, tried, map[]);
    infos, table := PlaceNew(h, st, infos, toBucket, Usable(st, asmap), mapAddr, vRandom, tried, src);
  }

  // Unserialize.  No two records have one address, as in every stream that Serialize writes.
  method Unserialize(h: Hashes, st: Stream, asmap: nat) returns (m: Manager?, lost: int, ghost toBucket: map<int, nat>)
    requires OwnAddresses(Records(st))
    ensures m == null <==> (st.compat - 32) % 256 > 3 || |st.newInfos| > 65536 || |st.triedInfos| > 16384
    ensures m != null ==> fresh(m) && m.h == h && m.Valid() && lost == |Records(st)| - |m.mapInfo|
    ensures m != null ==> LastBuckets(st.buckets, |st.newInfos|, toBucket, |st.buckets|)
    ensures m != null ==>
              m.vvNew == NewTable(h, st.newInfos, toBucket, st.format >= 2 && |st.buckets| == 1024 && st.asmap == asmap, |st.newInfos|)
    ensures m != null ==> ReadBack(m.mapInfo, Entered(h, st, |st.triedInfos|), Records(st), |st.newInfos|, m.vvNew)
  {
    m, lost, toBucket := null, 0, map[];
    if !Refused(st) {
      var infos, mapAddr, vRandom, tried, table, nIdCount, nLost, listed := LoadTables(h, st, asmap);
      toBucket := listed;
      ghost var src := Entered(h, st, |st.triedInfos|);
      NewComeFirst(h, st, |st.triedInfos|);
      LoadedCounts(infos, src, Records(st), |st.newInfos|);
      LoadedStatus(infos, src, Records(st), |st.newInfos|);
      m := new Manager.Loaded(h, infos, mapAddr, vRandom, tried, table, nIdCount, |st.triedInfos| - nLost, |st.newInfos|, Unplaced(infos));
      var nLostUnk := Prune(m, Unplaced(infos));
      PrunedReadBack(h, infos, m.mapInfo, src, Records(st), |st.newInfos|, table);
      lost := nLost + nLostUnk;
    }
  }

  // ---------- which addresses survive ----------

  lemma {:induction false} EnteredIff(h: Hashes, st: Stream, k: nat, r: nat)
    requires k <= |st.triedInfos| && |st.newInfos| <= r < |st.newInfos| + |st.triedInfos|
    ensures r in Entered(h, st, k) <==> r < |st.newInfos| + k && FirstInSlot(h, st.triedInfos, r - |st.newInfos|)
  {
    if k > 0 { EnteredIff(h, st, k - 1, r); }
  }

  /** A tried record keeps its entry if it is the first in its slot, and one of the new table if
      it gets a slot. */
  ghost predicate Keeps(h: Hashes, st: Stream, table: Table, r: nat)
    requires r < |Records(st)|
  {
    if r < |st.newInfos| then HasSlot(table, r) else FirstInSlot(h, st.triedInfos, r - |st.newInfos|)
  }

  /** An address comes back if and only if its record keeps its entry, and then as it was. */
  lemma Survives(h: Hashes, st: Stream, infos: InfoMap, mapAddr: map<NetAddr, int>, table: Table, r: nat)
    requires OwnAddresses(Records(st)) && AddrOk(infos, mapAddr) && r < |Records(st)|
    requires ReadBack(infos, Entered(h, st, |st.triedInfos|), Records(st), |st.newInfos|, table)
    ensures Records(st)[r].service.ip in mapAddr <==> Keeps(h, st, table, r)
    ensures Records(st)[r].service.ip in mapAddr ==>
            Restored(infos[mapAddr[Records(st)[r].service.ip]], Records(st)[r], r >= |st.newInfos|)
  {
    if Records(st)[r].service.ip in mapAddr {
      KnownIsKept(h, st, infos, mapAddr, table, r);
    }
    if Keeps(h, st, table, r) {
      KeptIsKnown(h, st, infos, mapAddr, table, r);
    }
  }

  lemma KnownIsKept(h: Hashes, st: Stream, infos: InfoMap, mapAddr: map<NetAddr, int>, table: Table, r: nat)
    requires OwnAddresses(Records(st)) && AddrOk(infos, mapAddr) && r < |Records(st)|
    requires ReadBack(infos, Entered(h, st, |st.triedInfos|), Records(st), |st.newInfos|, table)
    requires Records(st)[r].service.ip in mapAddr
    ensures Keeps(h, st, table, r)
    ensures Restored(infos[mapAddr[Records(st)[r].service.ip]], Records(st)[r], r >= |st.newInfos|)
  {
    var records, src, nNew := Records(st), Entered(h, st, |st.triedInfos|), |st.newInfos|;
    var n: int := mapAddr[records[r].service.ip];
    assert IsEntry(infos[n], records[src[n]], n >= nNew);
    SameRecord(records, src[n], r);
    NewAndTried(src, |records|, nNew, n);
    if n >= nNew { EnteredIff(h, st, |st.triedInfos|, r); }
  }

  lemma KeptIsKnown(h: Hashes, st: Stream, infos: InfoMap, mapAddr: map<NetAddr, int>, table: Table, r: nat)
    requires AddrOk(infos, mapAddr) && r < |Records(st)| && Keeps(h, st, table, r)
    requires ReadBack(infos, Entered(h, st, |st.triedInfos|), Records(st), |st.newInfos|, table)
    ensures Records(st)[r].service.ip in mapAddr
  {
    var records, src, nNew := Records(st), Entered(h, st, |st.triedInfos|), |st.newInfos|;
    var n: int := r;
    if r >= nNew {
      EnteredIff(h, st, |st.triedInfos|, r);
      n :| 0 <= n < |src| && src[n] == r;
    }
    NewAndTried(src, |records|, nNew, n);
    assert n in infos && IsEntry(infos[n], records[src[n]], n >= nNew);
  }

  lemma SameRecord(records: seq<Record>, j: nat, k: nat)
    requires OwnAddresses(records) && j < |records| && k < |records| && records[j].service.ip == records[k].service.ip
    ensures j == k
  {
  }

  /** All that is written of an address is as it was, with its table, and one reference if new. */
  ghost predicate Restored(info: Info, record: Record, tried: bool) {
    IsEntry(info, record, tried) && info.nRefCount == if tried then 0 else 1
  }

  // ---------- what Serialize writes ----------

  /** Record r was written for entry origin[r]; those below nNew are of new entries. */
  ghost predicate WrittenFor(records: seq<Record>, origin: seq<int>, infos: InfoMap, nNew: nat) {
    && |records| == |origin| && nNew <= |origin|
    && (forall r | 0 <= r < |origin| :: origin[r] in infos && IsEntry(infos[origin[r]], records[r], r >= nNew))
    && (forall j, k | 0 <= j < k < |origin| :: origin[j] != origin[k])
    && (forall n | n in infos :: n in origin)
  }

  lemma RecordsOf(st: Stream, h: Hashes, infos: InfoMap, newTable: Table, newIds: seq<int>, triedIds: seq<int>)
    requires Describes(st, h, infos, newTable, newIds, triedIds)
    ensures WrittenFor(Records(st), newIds + triedIds, infos, |newIds|)
  {
    var origin := newIds + triedIds;
    forall j, k | 0 <= j < k < |origin| ensures origin[j] != origin[k] {
      if j < |newIds| <= k {
        assert newIds[j] in NewIds(infos) && triedIds[k - |newIds|] in TriedIds(infos);
      }
    }
    forall r | 0 <= r < |origin| ensures origin[r] in infos && IsEntry(infos[origin[r]], Records(st)[r], r >= |newIds|) {
      if r < |newIds| { assert newIds[r] in NewIds(infos); } else { assert triedIds[r - |newIds|] in TriedIds(infos); }
    }
    forall n | n in infos ensures n in origin {
      if infos[n].fInTried { assert n in TriedIds(infos); } else { assert n in NewIds(infos); }
    }
  }

  lemma WrittenOnce(records: seq<Record>, origin: seq<int>, infos: InfoMap, mapAddr: map<NetAddr, int>, nNew: nat)
    requires WrittenFor(records, origin, infos, nNew) && AddrOk(infos, mapAddr)
    ensures OwnAddresses(records)
  {
    forall j, k | 0 <= j < k < |records| ensures records[j].service.ip != records[k].service.ip {
      assert IsEntry(infos[origin[j]], records[j], j >= nNew) && IsEntry(infos[origin[k]], records[k], k >= nNew);
      assert mapAddr[records[j].service.ip] == origin[j] && mapAddr[records[k].service.ip] == origin[k];
    }
  }

  /** What Serialize writes of a consistent manager is never refused. */
  lemma NotRefused(st: Stream, h: Hashes, infos: InfoMap, tried: Table, newTable: Table, newIds: seq<int>, triedIds: seq<int>)
    requires Describes(st, h, infos, newTable, newIds, triedIds)
    requires TriedOk(h, infos, tried) && NewOk(h, infos, newTable) && StatusOk(infos, {})
    ensures !Refused(st)
  {
    WithinLimits(h, infos, tried, newTable);
  }

  /** What is kept of an address: all that is written, its table, and one reference if new. */
  ghost predicate SameAddress(before: Info, after: Info) {
    && after.service == before.service && after.source == before.source && after.nTime == before.nTime
    && after.nServices == before.nServices && after.nLastSuccess == before.nLastSuccess && after.nAttempts == before.nAttempts
    && after.fInTried == before.fInTried && after.nRefCount == if before.fInTried then 0 else 1
  }

  ghost predicate SameAddresses(infos0: InfoMap, mapAddr0: map<NetAddr, int>, infos: InfoMap, mapAddr: map<NetAddr, int>)
    requires AddrOk(infos0, mapAddr0) && AddrOk(infos, mapAddr)
  {
    && (forall ip | ip in mapAddr :: ip in mapAddr0)
    && (forall ip | ip in mapAddr && ip in mapAddr0 :: SameAddress(infos0[mapAddr0[ip]], infos[mapAddr[ip]]))
  }

  /** Whatever comes back comes back as it was. */
  lemma Returned(h: Hashes, st: Stream, origin: seq<int>, infos0: InfoMap, mapAddr0: map<NetAddr, int>,
                 infos: InfoMap, mapAddr: map<NetAddr, int>, table: Table)
    requires AddrOk(infos0, mapAddr0) && AddrOk(infos, mapAddr) && WrittenFor(Records(st), origin, infos0, |st.newInfos|)
    requires ReadBack(infos, Entered(h, st, |st.triedInfos|), Records(st), |st.newInfos|, table)
    ensures SameAddresses(infos0, mapAddr0, infos, mapAddr)
  {
    var records, src, nNew := Records(st), Entered(h, st, |st.triedInfos|), |st.newInfos|;
    WrittenOnce(records, origin, infos0, mapAddr0, nNew);
    forall ip | ip in mapAddr ensures ip in mapAddr0 && SameAddress(infos0[mapAddr0[ip]], infos[mapAddr[ip]]) {
      var n: int := mapAddr[ip];
      var r: int := src[n];
      assert IsEntry(infos[n], records[r], n >= nNew);
      assert records[r].service.ip == ip;
      assert IsEntry(infos0[origin[r]], records[r], r >= nNew);
      KnownAs(infos0, mapAddr0, origin[r]);
      Survives(h, st, infos, mapAddr, table, r);
    }
  }

  lemma KnownAs(infos: InfoMap, mapAddr: map<NetAddr, int>, n: int)
    requires AddrOk(infos, mapAddr) && n in infos
    ensures infos[n].service.ip in mapAddr && mapAddr[infos[n].service.ip] == n
  {
  }

  // ---------- another AS map ----------

  /** The slot that the entry is due in its table when it is placed anew. */
  ghost function DueSlot(h: Hashes, info: Info): Slot {
    if info.fInTried then h.TriedSlot(info.service) else h.NewSlot(info.service, info.source)
  }

  /** No older entry of the same table is due the same slot. */
  ghost predicate FirstDue(h: Hashes, infos: InfoMap, n: int)
    requires n in infos
  {
    forall j | j in infos && j < n && infos[j].fInTried == infos[n].fInTried :: DueSlot(h, infos[j]) != DueSlot(h, infos[n])
  }

  ghost predicate FirstBySource(h: Hashes, records: seq<Record>, n: nat)
    requires n < |records|
  {
    forall j | 0 <= j < n :: SourceSlot(h, records[j]) != SourceSlot(h, records[n])
  }

  ghost function SourceSlot(h: Hashes, r: Record): Slot {
    h.NewSlot(r.service, r.source)
  }

  /** When the buckets of the file are not usable, slots go to those who come first. */
  ghost predicate BySource(h: Hashes, records: seq<Record>, table: Table, n: nat)
    requires n <= |records|
  {
    && (forall j | 0 <= j < n :: SourceSlot(h, records[j]) in table)
    && (forall j | 0 <= j < n && FirstBySource(h, records, j) :: table[SourceSlot(h, records[j])] == j)
    && (forall s | s in table :: 0 <= table[s] < n && s == SourceSlot(h, records[table[s]]) && FirstBySource(h, records, table[s]))
  }

  lemma {:induction false} PlacedBySource(h: Hashes, records: seq<Record>, toBucket: map<int, nat>, n: nat)
    requires n <= |records|
    ensures BySource(h, records, NewTable(h, records, toBucket, false, n), n)
  {
    if n > 0 {
      PlacedBySource(h, records, toBucket, n - 1);
      BySourceNext(h, records, NewTable(h, records, toBucket, false, n - 1), n - 1);
    }
  }

  lemma BySourceNext(h: Hashes, records: seq<Record>, table: Table, n: nat)
    requires n < |records| && BySource(h, records, table, n)
    ensures var s := SourceSlot(h, records[n]);
            BySource(h, records, if s in table then table else table[s := n], n + 1)
  {
    var s := SourceSlot(h, records[n]);
    if s in table {
      assert SourceSlot(h, records[table[s]]) == s;
    } else {
      forall j | 0 <= j < n ensures SourceSlot(h, records[j]) != s {
        assert SourceSlot(h, records[j]) in table;
      }
    }
  }

  lemma SlotBySource(h: Hashes, records: seq<Record>, table: Table, n: nat)
    requires BySource(h, records, table, |records|) && n < |records|
    ensures HasSlot(table, n) <==> FirstBySource(h, records, n)
  {
    if FirstBySource(h, records, n) {
      assert SourceSlot(h, records[n]) in SlotsOf(table, n);
    }
    if HasSlot(table, n) {
      var s :| s in SlotsOf(table, n);
      assert FirstBySource(h, records, table[s]);
    }
  }

  lemma FirstAmongNew(h2: Hashes, h: Hashes, st: Stream, infos: InfoMap, newTable: Table, newIds: seq<int>, triedIds: seq<int>, k: nat)
    requires Describes(st, h, infos, newTable, newIds, triedIds) && k < |newIds|
    ensures FirstBySource(h2, st.newInfos, k) <==> FirstDue(h2, infos, newIds[k])
  {
    var n: int := newIds[k];
    assert n in NewIds(infos);
    if FirstBySource(h2, st.newInfos, k) {
      forall j | j in infos && j < n && !infos[j].fInTried ensures DueSlot(h2, infos[j]) != DueSlot(h2, infos[n]) {
        assert j in NewIds(infos);
        var i :| 0 <= i < |newIds| && newIds[i] == j;
        assert SourceSlot(h2, st.newInfos[i]) != SourceSlot(h2, st.newInfos[k]);
      }
    }
    if FirstDue(h2, infos, n) {
      forall j | 0 <= j < k ensures SourceSlot(h2, st.newInfos[j]) != SourceSlot(h2, st.newInfos[k]) {
        assert newIds[j] in NewIds(infos) && newIds[j] < n;
      }
    }
  }

  lemma FirstAmongTried(h2: Hashes, h: Hashes, st: Stream, infos: InfoMap, newTable: Table, newIds: seq<int>, triedIds: seq<int>, k: nat)
    requires Describes(st, h, infos, newTable, newIds, triedIds) && k < |triedIds|
    ensures FirstInSlot(h2, st.triedInfos, k) <==> FirstDue(h2, infos, triedIds[k])
  {
    var n: int := triedIds[k];
    assert n in TriedIds(infos);
    if FirstInSlot(h2, st.triedInfos, k) {
      forall j | j in infos && j < n && infos[j].fInTried ensures DueSlot(h2, infos[j]) != DueSlot(h2, infos[n]) {
        assert j in TriedIds(infos);
        var i :| 0 <= i < |triedIds| && triedIds[i] == j;
        assert h2.TriedSlot(st.triedInfos[i].service) != h2.TriedSlot(st.triedInfos[k].service);
      }
    }
    if FirstDue(h2, infos, n) {
      forall j | 0 <= j < k ensures h2.TriedSlot(st.triedInfos[j].service) != h2.TriedSlot(st.triedInfos[k].service) {
        assert triedIds[j] in TriedIds(infos) && triedIds[j] < n;
      }
    }
  }

  /** Those that get a slot, or come first in theirs, are the entries first due theirs. */
  lemma FirstToReturn(h2: Hashes, h: Hashes, st: Stream, infos0: InfoMap, newTable0: Table, newIds: seq<int>, triedIds: seq<int>, table: Table, r: nat)
    requires Describes(st, h, infos0, newTable0, newIds, triedIds) && BySource(h2, st.newInfos, table, |st.newInfos|)
    requires r < |Records(st)| && (newIds + triedIds)[r] in infos0
    ensures Keeps(h2, st, table, r) <==> FirstDue(h2, infos0, (newIds + triedIds)[r])
  {
    if r < |newIds| {
      SlotBySource(h2, st.newInfos, table, r);
      FirstAmongNew(h2, h, st, infos0, newTable0, newIds, triedIds, r);
    } else {
      FirstAmongTried(h2, h, st, infos0, newTable0, newIds, triedIds, r - |newIds|);
    }
  }

  /** The records that keep their entries are those of the entries first due their slots. */
  ghost predicate KeepsFirst(h2: Hashes, st: Stream, table: Table, origin: seq<int>, infos0: InfoMap) {
    && |Records(st)| == |origin|
    && forall r | 0 <= r < |origin| :: origin[r] in infos0 && (Keeps(h2, st, table, r) <==> FirstDue(h2, infos0, origin[r]))
  }

  lemma AllFirst(h2: Hashes, h: Hashes, st: Stream, infos0: InfoMap, newTable0: Table, newIds: seq<int>, triedIds: seq<int>, toBucket: map<int, nat>)
    requires Describes(st, h, infos0, newTable0, newIds, triedIds)
    ensures KeepsFirst(h2, st, NewTable(h2, st.newInfos, toBucket, false, |st.newInfos|), newIds + triedIds, infos0)
  {
    var origin, table := newIds + triedIds, NewTable(h2, st.newInfos, toBucket, false, |st.newInfos|);
    PlacedBySource(h2, st.newInfos, toBucket, |st.newInfos|);
    RecordsOf(st, h, infos0, newTable0, newIds, triedIds);
    forall r | 0 <= r < |origin| ensures origin[r] in infos0 && (Keeps(h2, st, table, r) <==> FirstDue(h2, infos0, origin[r])) {
      FirstToReturn(h2, h, st, infos0, newTable0, newIds, triedIds, table, r);
    }
  }

  lemma SurvivesAnew(h2: Hashes, st: Stream, origin: seq<int>, infos0: InfoMap, infos: InfoMap, mapAddr: map<NetAddr, int>, table: Table, n: int)
    requires KeepsFirst(h2, st, table, origin, infos0) && n in infos0
    requires OwnAddresses(Records(st)) && WrittenFor(Records(st), origin, infos0, |st.newInfos|) && AddrOk(infos, mapAddr)
    requires ReadBack(infos, Entered(h2, st, |st.triedInfos|), Records(st), |st.newInfos|, table)
    ensures infos0[n].service.ip in mapAddr <==> FirstDue(h2, infos0, n)
  {
    var r :| 0 <= r < |origin| && origin[r] == n;
    assert IsEntry(infos0[n], Records(st)[r], r >= |st.newInfos|);
    Survives(h2, st, infos, mapAddr, table, r);
  }

  // Writing a manager under one AS map and reading it under another, which gives other hashes.
  method ReadAnew(m: Manager, asmap: nat, h2: Hashes, asmap2: nat) returns (back: Manager?)
    requires m.Valid() && asmap != asmap2
    ensures back != null && fresh(back) && back.Valid() && back.h == h2
    ensures SameAddresses(m.mapInfo, m.mapAddr, back.mapInfo, back.mapAddr)
    ensures forall n | n in m.mapInfo :: m.mapInfo[n].service.ip in back.mapAddr <==> FirstDue(h2, m.mapInfo, n)
  {
    var st, lost;
    ghost var newIds, triedIds, toBucket;
    st, newIds, triedIds := Serialize(m, asmap);
    ghost var origin := newIds + triedIds;
    RecordsOf(st, m.h, m.mapInfo, m.vvNew, newIds, triedIds);
    WrittenOnce(Records(st), origin, m.mapInfo, m.mapAddr, |newIds|);
    NotRefused(st, m.h, m.mapInfo, m.vvTried, m.vvNew, newIds, triedIds);
    back, lost, toBucket := Unserialize(h2, st, asmap2);
    Returned(h2, st, origin, m.mapInfo, m.mapAddr, back.mapInfo, back.mapAddr, back.vvNew);
    AllFirst(h2, m.h, st, m.mapInfo, m.vvNew, newIds, triedIds, toBucket);
    forall n | n in m.mapInfo ensures m.mapInfo[n].service.ip in back.mapAddr <==> FirstDue(h2, m.mapInfo, n) {
      SurvivesAnew(h2, st, origin, m.mapInfo, back.mapInfo, back.mapAddr, back.vvNew, n);
    }
  }

  // ---------- the same AS map ----------

  /** Every new entry is listed in some bucket, and the last one is a bucket that held it. */
  lemma EveryEntryListed(st: Stream, h: Hashes, infos: InfoMap, newTable: Table, newIds: seq<int>, triedIds: seq<int>, toBucket: map<int, nat>, k: nat)
    requires NewOk(h, infos, newTable) && StatusOk(infos, {}) && Describes(st, h, infos, newTable, newIds, triedIds)
    requires LastBuckets(st.buckets, |newIds|, toBucket, |st.buckets|) && k < |newIds|
    ensures k in toBucket && FoundIn(h, st.newInfos[k].service, newTable, newIds[k], toBucket[k])
  {
    var n: int := newIds[k];
    assert n in NewIds(infos) && infos[n].nRefCount == |SlotsOf(newTable, n)|;
    assert SlotsOf(newTable, n) != {};
    var s :| s in SlotsOf(newTable, n);
    OccupantIsNew(h, infos, newTable, s);
    assert NewSlotFits(h, infos[newTable[s]], s);
    assert RowOk(h, infos, newTable, newIds, s.bucket, st.buckets[s.bucket]);
    assert k in st.buckets[s.bucket] && Covered(st.buckets[s.bucket], |newIds|, toBucket);
    assert LastWith(st.buckets, k, toBucket[k], |st.buckets|);
    assert RowOk(h, infos, newTable, newIds, toBucket[k], st.buckets[toBucket[k]]);
  }

  /** Slots are held as in the manager that was written. */
  ghost predicate HeldAsBefore(table: Table, newIds: seq<int>, table0: Table) {
    forall s | s in table :: 0 <= table[s] < |newIds| && s in table0 && table0[s] == newIds[table[s]]
  }

  /** The first n entries have places, and places that they held before. */
  ghost predicate BackInPlace(table: Table, newIds: seq<int>, table0: Table, n: nat) {
    && HeldAsBefore(table, newIds, table0)
    && (forall s | s in table :: table[s] < n)
    && (forall k | 0 <= k < n :: HasSlot(table, k))
  }

  lemma BackInPlaceNext(table: Table, newIds: seq<int>, table0: Table, n: nat, s: Slot)
    requires BackInPlace(table, newIds, table0, n) && n < |newIds| && s in table0 && table0[s] == newIds[n]
    requires forall j, k | 0 <= j < k < |newIds| :: newIds[j] < newIds[k]
    ensures s !in table && BackInPlace(table[s := n], newIds, table0, n + 1)
  {
    forall t | t in table ensures t != s {
      assert newIds[table[t]] < newIds[n];
    }
    PlacedNext(table, s, n, table[s := n]);
  }

  lemma {:induction false} PlacedAsBefore(h: Hashes, records: seq<Record>, toBucket: map<int, nat>, newIds: seq<int>, table0: Table, n: nat)
    requires n <= |records| == |newIds| && forall j, k | 0 <= j < k < |newIds| :: newIds[j] < newIds[k]
    requires forall k | 0 <= k < |records| :: k in toBucket && FoundIn(h, records[k].service, table0, newIds[k], toBucket[k])
    ensures BackInPlace(NewTable(h, records, toBucket, true, n), newIds, table0, n)
  {
    if n > 0 {
      PlacedAsBefore(h, records, toBucket, newIds, table0, n - 1);
      var b: nat := toBucket[n - 1];
      assert FoundIn(h, records[n - 1].service, table0, newIds[n - 1], b);
      BackInPlaceNext(NewTable(h, records, toBucket, true, n - 1), newIds, table0, n - 1, Slot(b, h.Position(records[n - 1].service, true, b)));
    }
  }

  lemma PlacedNext(before: Table, s: Slot, n: nat, after: Table)
    requires s !in before && after == before[s := n] && forall k | 0 <= k < n :: HasSlot(before, k)
    ensures forall k | 0 <= k < n + 1 :: HasSlot(after, k)
  {
    forall k | 0 <= k < n + 1 ensures HasSlot(after, k) {
      if k == n {
        assert s in SlotsOf(after, k);
      } else {
        assert HasSlot(before, k);
        var t :| t in SlotsOf(before, k);
        assert t in SlotsOf(after, k);
      }
    }
  }

  /** Tried entries come back to the slots that they held, each its own. */
  lemma OwnTriedSlots(st: Stream, h: Hashes, infos: InfoMap, tried: Table, newTable: Table, newIds: seq<int>, triedIds: seq<int>, k: nat)
    requires Describes(st, h, infos, newTable, newIds, triedIds) && TriedOk(h, infos, tried) && k < |triedIds|
    ensures FirstInSlot(h, st.triedInfos, k)
  {
    forall j | 0 <= j < k ensures h.TriedSlot(st.triedInfos[j].service) != h.TriedSlot(st.triedInfos[k].service) {
      assert triedIds[j] in TriedIds(infos) && triedIds[k] in TriedIds(infos);
      assert TriedIn(h, infos[triedIds[j]], triedIds[j], tried) && TriedIn(h, infos[triedIds[k]], triedIds[k], tried);
    }
  }

  lemma {:induction false} AllEntered(h: Hashes, st: Stream, k: nat)
    requires k <= |st.triedInfos| && forall j | 0 <= j < k :: FirstInSlot(h, st.triedInfos, j)
    ensures |Entered(h, st, k)| == |st.newInfos| + k
  {
    if k > 0 { AllEntered(h, st, k - 1); }
  }

  lemma NewComeBack(st: Stream, h: Hashes, infos0: InfoMap, newTable0: Table, newIds: seq<int>, triedIds: seq<int>, toBucket: map<int, nat>)
    requires Describes(st, h, infos0, newTable0, newIds, triedIds) && NewOk(h, infos0, newTable0) && StatusOk(infos0, {})
    requires LastBuckets(st.buckets, |newIds|, toBucket, |st.buckets|)
    ensures BackInPlace(NewTable(h, st.newInfos, toBucket, true, |st.newInfos|), newIds, newTable0, |newIds|)
  {
    forall k | 0 <= k < |newIds| ensures k in toBucket && FoundIn(h, st.newInfos[k].service, newTable0, newIds[k], toBucket[k]) {
      EveryEntryListed(st, h, infos0, newTable0, newIds, triedIds, toBucket, k);
    }
    PlacedAsBefore(h, st.newInfos, toBucket, newIds, newTable0, |newIds|);
  }

  lemma TriedComeBack(st: Stream, h: Hashes, infos0: InfoMap, tried0: Table, newTable0: Table, newIds: seq<int>, triedIds: seq<int>)
    requires Describes(st, h, infos0, newTable0, newIds, triedIds) && TriedOk(h, infos0, tried0)
    ensures forall k | 0 <= k < |triedIds| :: FirstInSlot(h, st.triedInfos, k)
    ensures |Entered(h, st, |st.triedInfos|)| == |Records(st)|
  {
    forall k | 0 <= k < |triedIds| ensures FirstInSlot(h, st.triedInfos, k) {
      OwnTriedSlots(st, h, infos0, tried0, newTable0, newIds, triedIds, k);
    }
    AllEntered(h, st, |st.triedInfos|);
  }

  /** When every new entry has a slot, there is an entry for each record entered. */
  lemma AllKept(infos: InfoMap, src: seq<nat>, records: seq<Record>, nNew: nat, table: Table)
    requires ReadBack(infos, src, records, nNew, table) && forall k | 0 <= k < nNew :: HasSlot(table, k)
    ensures |infos| == |src|
  {
    forall n ensures n in infos.Keys <==> 0 <= n < |src| {
      assert n in infos <==> 0 <= n < |src| && (n < nNew ==> HasSlot(table, n));
    }
    IntervalSize(infos.Keys, 0, |src|);
  }

  lemma ComesBack(h: Hashes, st: Stream, origin: seq<int>, infos0: InfoMap, infos: InfoMap, mapAddr: map<NetAddr, int>, table: Table, n: int)
    requires n in infos0 && WrittenFor(Records(st), origin, infos0, |st.newInfos|) && AddrOk(infos, mapAddr)
    requires ReadBack(infos, Entered(h, st, |st.triedInfos|), Records(st), |st.newInfos|, table)
    requires forall k | 0 <= k < |st.newInfos| :: HasSlot(table, k)
    requires forall k | 0 <= k < |st.triedInfos| :: FirstInSlot(h, st.triedInfos, k)
    ensures infos0[n].service.ip in mapAddr
  {
    var r :| 0 <= r < |origin| && origin[r] == n;
    assert IsEntry(infos0[n], Records(st)[r], r >= |st.newInfos|);
    KeptIsKnown(h, st, infos, mapAddr, table, r);
  }

  // Writing a manager and reading it back under the same AS map.
  method RoundTrip(m: Manager, asmap: nat) returns (back: Manager?, lost: int)
    requires m.Valid()
    ensures back != null && fresh(back) && back.Valid() && back.h == m.h && lost == 0
    ensures back.mapAddr.Keys == m.mapAddr.Keys && SameAddresses(m.mapInfo, m.mapAddr, back.mapInfo, back.mapAddr)
    ensures forall s | s in back.vvNew :: s in m.vvNew && m.mapInfo[m.vvNew[s]].service == back.mapInfo[back.vvNew[s]].service
  {
    var st;
    ghost var newIds, triedIds, toBucket;
    st, newIds, triedIds := Serialize(m, asmap);
    ghost var origin := newIds + triedIds;
    RecordsOf(st, m.h, m.mapInfo, m.vvNew, newIds, triedIds);
    WrittenOnce(Records(st), origin, m.mapInfo, m.mapAddr, |newIds|);
    NotRefused(st, m.h, m.mapInfo, m.vvTried, m.vvNew, newIds, triedIds);
    back, lost, toBucket := Unserialize(m.h, st, asmap);
    NewComeBack(st, m.h, m.mapInfo, m.vvNew, newIds, triedIds, toBucket);
    TriedComeBack(st, m.h, m.mapInfo, m.vvTried, m.vvNew, newIds, triedIds);
    AllKept(back.mapInfo, Entered(m.h, st, |st.triedInfos|), Records(st), |st.newInfos|, back.vvNew);
    Returned(m.h, st, origin, m.mapInfo, m.mapAddr, back.mapInfo, back.mapAddr, back.vvNew);
    forall ip | ip in m.mapAddr ensures ip in back.mapAddr {
      ComesBack(m.h, st, origin, m.mapInfo, back.mapInfo, back.mapAddr, back.vvNew, m.mapAddr[ip]);
    }
    forall s | s in back.vvNew ensures s in m.vvNew && m.mapInfo[m.vvNew[s]].service == back.mapInfo[back.vvNew[s]].service {
      HeldBySame(st, origin, m.mapInfo, m.h, back.mapInfo, back.vvNew, newIds, s);
    }
  }

  lemma HeldBySame(st: Stream, origin: seq<int>, infos0: InfoMap, h: Hashes, infos: InfoMap, table: Table, newIds: seq<int>, s: Slot)
    requires WrittenFor(Records(st), origin, infos0, |newIds|) && newIds <= origin && |st.newInfos| == |newIds|
    requires ReadBack(infos, Entered(h, st, |st.triedInfos|), Records(st), |newIds|, table)
    requires s in table && 0 <= table[s] < |newIds| && table[s] in infos
    ensures infos0[newIds[table[s]]].service == infos[table[s]].service
  {
    var n: int := table[s];
    var src := Entered(h, st, |st.triedInfos|);
    NewAndTried(src, |Records(st)|, |newIds|, n);
    assert IsEntry(infos[n], Records(st)[src[n]], n >= |newIds|);
    assert IsEntry(infos0[origin[n]], Records(st)[n], n >= |newIds|);
  }
}
