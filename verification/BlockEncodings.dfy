/** Compact blocks: sending a block as short ids, and rebuilding it (src/blockencodings.h, src/blockencodings.cpp). */
module BlockEncodings {
  import opened Sequences

  const MAX_COUNT := 100000 // MAX_BLOCK_WEIGHT / MIN_SERIALIZABLE_TRANSACTION_WEIGHT
  const UINT16_MAX := 65535

  datatype Status = Ok | Invalid | Failed | CheckBlockFailed

  /** What the check of a complete block finds. */
  datatype Verdict = Sound | Mutated | Bad

  /** A transaction: the hash short ids are made from, its witness hash, and what the code asks about it. */
  datatype Tx = Tx(hash: int, witnessHash: int, isHogEx: bool, isNull: bool)
  datatype Prefilled = Prefilled(index: nat, tx: Tx)
  datatype CompactBlock = CompactBlock(shorttxids: seq<int>, prefilledtxn: seq<Prefilled>)

  /** A transaction at hand, under the hash it is looked up by. */
  datatype Entry = Entry(hash: int, tx: Tx)

  type ShortId = int -> int
  type Slots = seq<Option<Tx>>

  // ---------- counting filled slots ----------

  function Filled(s: Slots): (r: nat)
    ensures r <= |s|
  {
    if s == [] then 0 else Filled(s[..|s| - 1]) + (if s[|s| - 1].Some? then 1 else 0)
  }

  lemma {:induction false} FilledUpdate(s: Slots, p: nat, v: Option<Tx>)
    requires p < |s|
    ensures Filled(s[p := v]) == Filled(s) - (if s[p].Some? then 1 else 0) + (if v.Some? then 1 else 0)
    decreases |s|
  {
    var k := |s| - 1;
    if p == k {
      assert s[p := v][..k] == s[..k];
    } else {
      assert s[p := v][..k] == s[..k][p := v];
      FilledUpdate(s[..k], p, v);
    }
  }

  lemma {:induction false} FilledNone(s: Slots)
    requires forall p | 0 <= p < |s| :: s[p].None?
    ensures Filled(s) == 0
    decreases |s|
  {
    if s != [] { FilledNone(s[..|s| - 1]); }
  }

  lemma FilledStep(s: Slots, p: nat)
    requires p < |s|
    ensures Filled(s[..p + 1]) == Filled(s[..p]) + (if s[p].Some? then 1 else 0)
  {
    assert s[..p + 1][..p] == s[..p];
  }

  lemma {:induction false} EmptyMono(s: Slots, p: nat, q: nat)
    requires p <= q <= |s|
    ensures p - Filled(s[..p]) <= q - Filled(s[..q])
    decreases q
  {
    if p < q {
      EmptyMono(s, p, q - 1);
      FilledStep(s, q - 1);
    }
  }

  // ---------- the prefilled transactions ----------

  /** Where prefilled transaction i goes: each index counts from the one before. */
  function Position(prefilled: seq<Prefilled>, i: int): (r: int)
    requires -1 <= i < |prefilled|
    ensures r >= i
    decreases i + 1
  {
    if i == -1 then -1 else Position(prefilled, i - 1) + prefilled[i].index + 1
  }

  lemma {:induction false} PositionGrows(prefilled: seq<Prefilled>, i: int, j: int)
    requires -1 <= i < j < |prefilled|
    ensures Position(prefilled, i) < Position(prefilled, j)
    decreases j
  {
    if i < j - 1 { PositionGrows(prefilled, i, j - 1); }
  }

  /** The first k prefilled transactions sit at their positions, and nothing else is filled. */
  ghost predicate Placed(prefilled: seq<Prefilled>, k: nat, s: Slots)
    requires k <= |prefilled|
  {
    && Filled(s) == k
    && (forall i | 0 <= i < k :: InSlot(prefilled, i, s))
    && (forall p | 0 <= p < |s| && s[p].Some? :: exists i :: 0 <= i < k && Position(prefilled, i) == p)
  }

  ghost predicate InSlot(prefilled: seq<Prefilled>, i: nat, s: Slots)
    requires i < |prefilled|
  {
    Position(prefilled, i) < |s| && s[Position(prefilled, i)] == Some(prefilled[i].tx)
  }

  ghost predicate PositionOk(cmpct: CompactBlock, i: nat)
    requires i < |cmpct.prefilledtxn|
  {
    && !cmpct.prefilledtxn[i].tx.isNull
    && Position(cmpct.prefilledtxn, i) <= UINT16_MAX
    && Position(cmpct.prefilledtxn, i) <= |cmpct.shorttxids| + i
  }

  lemma PlaceNext(prefilled: seq<Prefilled>, k: nat, s: Slots)
    requires k < |prefilled| && Placed(prefilled, k, s) && Position(prefilled, k) < |s|
    ensures Placed(prefilled, k + 1, s[Position(prefilled, k) := Some(prefilled[k].tx)])
  {
    var p := Position(prefilled, k);
    var s' := s[p := Some(prefilled[k].tx)];
    forall i | 0 <= i < k ensures Position(prefilled, i) < p {
      PositionGrows(prefilled, i, k);
    }
    assert s[p].None?;
    FilledUpdate(s, p, Some(prefilled[k].tx));
    forall i | 0 <= i < k + 1 ensures InSlot(prefilled, i, s') {
      if i < k { assert InSlot(prefilled, i, s); }
    }
  }

  // the first loop of InitData
  method PlacePrefilled(cmpct: CompactBlock) returns (ok: bool, s: Slots)
    ensures ok <==> forall i | 0 <= i < |cmpct.prefilledtxn| :: PositionOk(cmpct, i)
    ensures ok ==> |s| == |cmpct.shorttxids| + |cmpct.prefilledtxn| && Placed(cmpct.prefilledtxn, |cmpct.prefilledtxn|, s)
  {
    s := seq(|cmpct.shorttxids| + |cmpct.prefilledtxn|, _ => None);
    FilledNone(s);
    var last := -1;
    for i := 0 to |cmpct.prefilledtxn|
      invariant last == Position(cmpct.prefilledtxn, i - 1)
      invariant |s| == |cmpct.shorttxids| + |cmpct.prefilledtxn| && Placed(cmpct.prefilledtxn, i, s)
      invariant forall j | 0 <= j < i :: PositionOk(cmpct, j)
    {
      if cmpct.prefilledtxn[i].tx.isNull {
        assert !PositionOk(cmpct, i);
        return false, s;
      }
      last := last + cmpct.prefilledtxn[i].index + 1;
      if last > UINT16_MAX || last > |cmpct.shorttxids| + i {
        assert !PositionOk(cmpct, i);
        return false, s;
      }
      PlaceNext(cmpct.prefilledtxn, i, s);
      s := s[last := Some(cmpct.prefilledtxn[i].tx)];
    }
    return true, s;
  }

  // ---------- the slots of the short ids ----------

  /** p is the slot that is empty and has i empty ones before it. */
  ghost predicate IsEmptySlot(s: Slots, i: nat, p: nat) {
    p < |s| && s[p].None? && p - Filled(s[..p]) == i
  }

  // the inner loop of the scan, which stays inside the array while enough empty slots remain
  method NextEmpty(s: Slots, i: nat, from: nat) returns (p: nat)
    requires from <= |s| && from - Filled(s[..from]) == i < |s| - Filled(s)
    ensures from <= p && IsEmptySlot(s, i, p)
  {
    p := from;
    assert s[..|s|] == s;
    while s[p].Some?
      invariant from <= p < |s| && p - Filled(s[..p]) == i
      decreases |s| - p
    {
      FilledStep(s, p);
      p := p + 1;
    }
  }

  ghost predicate Distinct(shorttxids: seq<int>, n: nat)
    requires n <= |shorttxids|
  {
    forall i, j | 0 <= i < j < n :: shorttxids[i] != shorttxids[j]
  }

  ghost predicate Listed(shorttxids: seq<int>, n: nat, id: int) {
    exists i :: 0 <= i < n <= |shorttxids| && shorttxids[i] == id
  }

  /** The keys are the first n short ids. */
  ghost predicate Members(shorttxids: seq<int>, n: nat, ids: map<int, nat>) {
    forall id: int :: id in ids <==> Listed(shorttxids, n, id)
  }

  /** There are n keys exactly when no short id came twice. */
  ghost predicate KeysOk(shorttxids: seq<int>, n: nat, ids: map<int, nat>)
    requires n <= |shorttxids|
  {
    Members(shorttxids, n, ids) && |ids| <= n && (|ids| == n <==> Distinct(shorttxids, n))
  }

  lemma ListedNext(shorttxids: seq<int>, n: nat, x: int)
    requires n < |shorttxids|
    ensures Listed(shorttxids, n + 1, x) <==> Listed(shorttxids, n, x) || shorttxids[n] == x
  {
    if Listed(shorttxids, n, x) {
      var i :| 0 <= i < n && shorttxids[i] == x;
      assert 0 <= i < n + 1;
    }
  }

  lemma DistinctNext(shorttxids: seq<int>, n: nat)
    requires n < |shorttxids|
    ensures Distinct(shorttxids, n + 1) <==> Distinct(shorttxids, n) && !Listed(shorttxids, n, shorttxids[n])
  {
    if Listed(shorttxids, n, shorttxids[n]) {
      var i :| 0 <= i < n && shorttxids[i] == shorttxids[n];
      assert !Distinct(shorttxids, n + 1);
    }
  }

  lemma MembersNext(shorttxids: seq<int>, n: nat, ids: map<int, nat>, p: nat)
    requires n < |shorttxids| && Members(shorttxids, n, ids)
    ensures Members(shorttxids, n + 1, ids[shorttxids[n] := p])
  {
    var ids' := ids[shorttxids[n] := p];
    forall x: int ensures x in ids' <==> Listed(shorttxids, n + 1, x) {
      ListedNext(shorttxids, n, x);
      assert x in ids <==> Listed(shorttxids, n, x);
    }
  }

  lemma SizeNext(ids: map<int, nat>, id: int, p: nat)
    ensures |ids[id := p]| == |ids| + if id in ids then 0 else 1
  {
    var ids' := ids[id := p];
    if id in ids {
      assert ids'.Keys == ids.Keys;
    } else {
      assert ids'.Keys == ids.Keys + {id};
    }
  }

  lemma KeysStep(shorttxids: seq<int>, n: nat, ids: map<int, nat>, p: nat)
    requires n < |shorttxids| && KeysOk(shorttxids, n, ids)
    ensures KeysOk(shorttxids, n + 1, ids[shorttxids[n] := p])
  {
    MembersNext(shorttxids, n, ids, p);
    DistinctNext(shorttxids, n);
    SizeNext(ids, shorttxids[n], p);
  }

  /** ids maps every short id to its own empty slot. */
  ghost predicate SlotsOk(shorttxids: seq<int>, n: nat, s: Slots, ids: map<int, nat>)
    requires n <= |shorttxids|
  {
    forall i | 0 <= i < n :: shorttxids[i] in ids && IsEmptySlot(s, i, ids[shorttxids[i]])
  }

  lemma SlotsStep(shorttxids: seq<int>, n: nat, s: Slots, ids: map<int, nat>, p: nat)
    requires n < |shorttxids| && Distinct(shorttxids, n + 1) && SlotsOk(shorttxids, n, s, ids) && IsEmptySlot(s, n, p)
    ensures SlotsOk(shorttxids, n + 1, s, ids[shorttxids[n] := p])
  {
  }

  ghost predicate Indexed(shorttxids: seq<int>, n: nat, s: Slots, ids: map<int, nat>)
    requires n <= |shorttxids|
  {
    KeysOk(shorttxids, n, ids) && SlotsOk(shorttxids, n, s, ids)
  }

  // the second loop; `uneven` answers whether a hash bucket has grown past its limit
  method IndexShortIds(shorttxids: seq<int>, s: Slots, uneven: nat -> bool) returns (ok: bool, ids: map<int, nat>)
    requires |s| - Filled(s) == |shorttxids|
    ensures ok ==> |ids| == |shorttxids| && Indexed(shorttxids, |shorttxids|, s, ids)
    ensures ok <==> Distinct(shorttxids, |shorttxids|) && forall i: nat | i < |shorttxids| :: !uneven(i)
  {
    ids := map[];
    var offset := 0;
    assert s[..0] == [];
    for i := 0 to |shorttxids|
      invariant 0 <= offset && i + offset <= |s| && i + offset - Filled(s[..i + offset]) == i
      invariant KeysOk(shorttxids, i, ids)
      invariant Distinct(shorttxids, i) ==> SlotsOk(shorttxids, i, s, ids)
      invariant forall j: nat | j < i :: !uneven(j)
    {
      var p := NextEmpty(s, i, i + offset);
      offset := p - i;
      FilledStep(s, p);
      KeysStep(shorttxids, i, ids, p);
      if Distinct(shorttxids, i + 1) { SlotsStep(shorttxids, i, s, ids, p); }
      ids := ids[shorttxids[i] := p];
      if uneven(i) {
        return false, ids;
      }
    }
    ok := |ids| == |shorttxids|;
  }

  // ---------- transactions at hand ----------

  ghost predicate Hits(shortId: ShortId, ids: map<int, nat>, e: Entry, p: nat) {
    var id := shortId(e.hash);
    id in ids && ids[id] == p
  }

  /** t comes from an entry whose short id asks for slot p. */
  ghost predicate Supplied(shortId: ShortId, ids: map<int, nat>, src: seq<Entry>, p: nat, t: Tx) {
    exists k :: 0 <= k < |src| && Hits(shortId, ids, src[k], p) && src[k].tx == t
  }

  ghost predicate Targets(ids: map<int, nat>, s: Slots) {
    forall id | id in ids :: ids[id] < |s| && s[ids[id]].None?
  }

  /** s grew out of s0 by filling slots that entries of src asked for; `found` counts them. */
  ghost predicate Progress(shortId: ShortId, ids: map<int, nat>, src: seq<Entry>, s0: Slots, s: Slots, have: seq<bool>, found: int) {
    && |s| == |s0| == |have| && Filled(s) == Filled(s0) + found && found >= 0
    && forall p | 0 <= p < |s| :: SlotOk(shortId, ids, src, s0, s, have, p)
  }

  ghost predicate SlotOk(shortId: ShortId, ids: map<int, nat>, src: seq<Entry>, s0: Slots, s: Slots, have: seq<bool>, p: nat)
    requires p < |s| == |s0| == |have|
  {
    && (s0[p].Some? || !have[p] ==> s[p] == s0[p])
    && (s0[p].None? && s[p].Some? ==> Supplied(shortId, ids, src, p, s[p].value))
  }

  /** What is filled on top of s0 is counted, so the count never runs below zero. */
  lemma {:induction false} FilledAtLeast(s0: Slots, s: Slots)
    requires |s| == |s0| && forall p | 0 <= p < |s| && s0[p].Some? :: s[p].Some?
    ensures Filled(s0) <= Filled(s)
    decreases |s|
  {
    if s != [] { FilledAtLeast(s0[..|s| - 1], s[..|s| - 1]); }
  }

  /** Filling or emptying one asked-for slot. */
  lemma ProgressStep(shortId: ShortId, ids: map<int, nat>, src: seq<Entry>, s0: Slots, s: Slots, have: seq<bool>, found: int,
                     p: nat, v: Option<Tx>, s': Slots, have': seq<bool>)
    requires Progress(shortId, ids, src, s0, s, have, found) && p < |s| && s0[p].None?
    requires v.Some? ==> Supplied(shortId, ids, src, p, v.value)
    requires s' == s[p := v] && have' == have[p := true]
    ensures Progress(shortId, ids, src, s0, s', have',
                     found + (if v.Some? then 1 else 0) - (if s[p].Some? then 1 else 0))
  {
    FilledUpdate(s, p, v);
    forall q | 0 <= q < |s'| ensures SlotOk(shortId, ids, src, s0, s', have', q) {
      assert SlotOk(shortId, ids, src, s0, s, have, q);
    }
    forall q | 0 <= q < |s'| && s0[q].Some? ensures s'[q].Some? {
      assert SlotOk(shortId, ids, src, s0, s', have', q);
    }
    FilledAtLeast(s0, s');
  }

  /** What one entry does to the slot it asks for: the first fills it, a different second empties it. */
  ghost predicate Offered(shortId: ShortId, ids: map<int, nat>, e: Entry, sameIsKept: bool,
                          s: Slots, have: seq<bool>, s': Slots, have': seq<bool>)
    requires |s| == |have|
  {
    var id := shortId(e.hash);
    if id in ids && ids[id] < |s| then
      var p := ids[id];
      && have' == have[p := true]
      && s' == s[p := if !have[p] then Some(e.tx)
                      else if sameIsKept && s[p].Some? && s[p].value.witnessHash == e.tx.witnessHash then s[p]
                      else None]
    else
      s' == s && have' == have
  }

  // one entry of the mempool, or of the extra pool where an equal witness hash is no conflict
  method Offer(shortId: ShortId, ids: map<int, nat>, ghost src: seq<Entry>, ghost s0: Slots, s: Slots, have: seq<bool>,
               found: nat, e: Entry, sameIsKept: bool)
    returns (s': Slots, have': seq<bool>, found': nat)
    requires Targets(ids, s0) && e in src && Progress(shortId, ids, src, s0, s, have, found)
    ensures Progress(shortId, ids, src, s0, s', have', found')
    ensures Offered(shortId, ids, e, sameIsKept, s, have, s', have')
  {
    s', have', found' := s, have, found;
    var id := shortId(e.hash);
    if id in ids {
      var p := ids[id];
      if !have[p] {
        assert SlotOk(shortId, ids, src, s0, s, have, p);
        assert Hits(shortId, ids, e, p);
        s' := s[p := Some(e.tx)];
        have' := have[p := true];
        ProgressStep(shortId, ids, src, s0, s, have, found, p, Some(e.tx), s', have');
        found' := found + 1;
      } else if s[p].Some? && !(sameIsKept && s[p].value.witnessHash == e.tx.witnessHash) {
        s' := s[p := None];
        ProgressStep(shortId, ids, src, s0, s, have, found, p, None, s', have);
        found' := found - 1;
      }
    }
  }

  // ---------- when nothing collides ----------

  /** Entries that share a short id are the same transaction. */
  ghost predicate SameWitness(shortId: ShortId, src: seq<Entry>) {
    forall i, j | 0 <= i < |src| && 0 <= j < |src| ::
      shortId(src[i].hash) == shortId(src[j].hash) ==> src[i].tx.witnessHash == src[j].tx.witnessHash
  }

  ghost predicate DistinctIds(shortId: ShortId, entries: seq<Entry>) {
    forall i, j | 0 <= i < j < |entries| :: shortId(entries[i].hash) != shortId(entries[j].hash)
  }

  /** One of the first n entries asks for slot p. */
  ghost predicate Asked(shortId: ShortId, ids: map<int, nat>, entries: seq<Entry>, n: nat, p: nat) {
    exists k :: 0 <= k < n <= |entries| && Hits(shortId, ids, entries[k], p)
  }

  ghost predicate Solid(s: Slots, have: seq<bool>) {
    |s| == |have| && forall p | 0 <= p < |s| && have[p] :: s[p].Some?
  }

  /** Each slot maps back to one short id. */
  ghost predicate OneToOne(ids: map<int, nat>) {
    forall a, b | a in ids && b in ids && ids[a] == ids[b] :: a == b
  }

  /** No entry empties a slot: the mempool has no two alike, or alike entries are the same transaction. */
  ghost predicate Quiet(shortId: ShortId, ids: map<int, nat>, src: seq<Entry>, entries: seq<Entry>, have: seq<bool>, sameIsKept: bool) {
    && OneToOne(ids)
    && if sameIsKept then SameWitness(shortId, src)
       else DistinctIds(shortId, entries) && forall p | 0 <= p < |have| :: !have[p]
  }

  /** After n entries, the filled slots are those filled before and those asked for. */
  ghost predicate FilledAsAsked(shortId: ShortId, ids: map<int, nat>, entries: seq<Entry>, n: nat, s: Slots, s': Slots) {
    |s| == |s'| && forall p | 0 <= p < |s| :: s'[p].Some? <==> s[p].Some? || Asked(shortId, ids, entries, n, p)
  }

  ghost predicate AskedFor(shortId: ShortId, ids: map<int, nat>, entries: seq<Entry>, n: nat, have: seq<bool>) {
    forall p | 0 <= p < |have| && have[p] :: Asked(shortId, ids, entries, n, p)
  }

  /** Two mempool entries cannot ask for one slot. */
  lemma NotTwice(shortId: ShortId, ids: map<int, nat>, entries: seq<Entry>, n: nat, p: nat)
    requires OneToOne(ids) && DistinctIds(shortId, entries) && n < |entries| && Hits(shortId, ids, entries[n], p)
    ensures !Asked(shortId, ids, entries, n, p)
  {
    forall k | 0 <= k < n ensures !Hits(shortId, ids, entries[k], p) {
      assert shortId(entries[k].hash) != shortId(entries[n].hash);
    }
  }

  /** An entry that asks for a slot another one has filled is the same transaction. */
  lemma SameAgain(shortId: ShortId, ids: map<int, nat>, src: seq<Entry>, e: Entry, p: nat, t: Tx)
    requires OneToOne(ids) && SameWitness(shortId, src) && e in src
    requires Hits(shortId, ids, e, p) && Supplied(shortId, ids, src, p, t)
    ensures t.witnessHash == e.tx.witnessHash
  {
    var j :| 0 <= j < |src| && src[j] == e;
    var k :| 0 <= k < |src| && Hits(shortId, ids, src[k], p) && src[k].tx == t;
    assert shortId(src[k].hash) == shortId(src[j].hash);
  }

  lemma AskedNext(shortId: ShortId, ids: map<int, nat>, entries: seq<Entry>, n: nat, p: nat)
    requires n < |entries|
    ensures Asked(shortId, ids, entries, n + 1, p) <==>
            Asked(shortId, ids, entries, n, p) || Hits(shortId, ids, entries[n], p)
  {
    if Asked(shortId, ids, entries, n, p) {
      var k :| 0 <= k < n && Hits(shortId, ids, entries[k], p);
      assert 0 <= k < n + 1;
    }
  }

  /** In the quiet case an offer fills its slot or leaves it filled. */
  lemma QuietOffer(shortId: ShortId, ids: map<int, nat>, src: seq<Entry>, s0: Slots, entries: seq<Entry>, n: nat,
                   s: Slots, have: seq<bool>, found: int, s': Slots, have': seq<bool>, sameIsKept: bool)
    requires Progress(shortId, ids, src, s0, s, have, found) && Solid(s, have) && Targets(ids, s0)
    requires n < |entries| && entries[n] in src && Offered(shortId, ids, entries[n], sameIsKept, s, have, s', have')
    requires OneToOne(ids)
    requires if sameIsKept then SameWitness(shortId, src)
             else DistinctIds(shortId, entries) && AskedFor(shortId, ids, entries, n, have)
    ensures Solid(s', have')
    ensures forall p | 0 <= p < |s| :: s'[p].Some? <==> s[p].Some? || Hits(shortId, ids, entries[n], p)
  {
    var e := entries[n];
    var id := shortId(e.hash);
    if id in ids {
      var p := ids[id];
      assert Hits(shortId, ids, e, p);
      if have[p] {
        if sameIsKept {
          assert SlotOk(shortId, ids, src, s0, s, have, p);
          SameAgain(shortId, ids, src, e, p, s[p].value);
        } else {
          NotTwice(shortId, ids, entries, n, p);
          assert false;
        }
      }
      assert s'[p].Some?;
    }
  }

  lemma QuietStep(shortId: ShortId, ids: map<int, nat>, entries: seq<Entry>, n: nat, s0: Slots,
                  s: Slots, s': Slots, have: seq<bool>, have': seq<bool>, sameIsKept: bool)
    requires n < |entries| && FilledAsAsked(shortId, ids, entries, n, s0, s) && |s'| == |s| == |have|
    requires Offered(shortId, ids, entries[n], sameIsKept, s, have, s', have')
    requires forall p | 0 <= p < |s| :: s'[p].Some? <==> s[p].Some? || Hits(shortId, ids, entries[n], p)
    ensures FilledAsAsked(shortId, ids, entries, n + 1, s0, s')
    ensures AskedFor(shortId, ids, entries, n, have) ==> AskedFor(shortId, ids, entries, n + 1, have')
  {
    forall p | 0 <= p < |s|
      ensures s'[p].Some? <==> s0[p].Some? || Asked(shortId, ids, entries, n + 1, p)
    {
      AskedNext(shortId, ids, entries, n, p);
    }
    if AskedFor(shortId, ids, entries, n, have) {
      forall p | 0 <= p < |have'| && have'[p] ensures Asked(shortId, ids, entries, n + 1, p) {
        AskedNext(shortId, ids, entries, n, p);
      }
    }
  }

  // ---------- when entries collide ----------

  /** The slots, and which of them have been asked for. */
  datatype Hand = Hand(slots: Slots, have: seq<bool>)

  /** The hand after the first n entries have been offered. */
  ghost function Offering(shortId: ShortId, ids: map<int, nat>, entries: seq<Entry>, n: nat, sameIsKept: bool, x: Hand): (y: Hand)
    requires n <= |entries| && |x.slots| == |x.have|
    ensures |y.slots| == |y.have| == |x.slots|
  {
    if n == 0 then x else OneOffer(shortId, ids, entries[n - 1], sameIsKept, Offering(shortId, ids, entries, n - 1, sameIsKept, x))
  }

  ghost function OneOffer(shortId: ShortId, ids: map<int, nat>, e: Entry, sameIsKept: bool, x: Hand): (y: Hand)
    requires |x.slots| == |x.have|
    ensures |y.slots| == |y.have| == |x.slots|
    ensures Offered(shortId, ids, e, sameIsKept, x.slots, x.have, y.slots, y.have)
  {
    var id := shortId(e.hash);
    if id in ids && ids[id] < |x.slots| then
      var p := ids[id];
      Hand(x.slots[p := if !x.have[p] then Some(e.tx)
                        else if sameIsKept && x.slots[p].Some? && x.slots[p].value.witnessHash == e.tx.witnessHash then x.slots[p]
                        else None],
           x.have[p := true])
    else x
  }

  lemma OfferedIs(shortId: ShortId, ids: map<int, nat>, e: Entry, sameIsKept: bool, x: Hand, s': Slots, have': seq<bool>)
    requires |x.slots| == |x.have| && Offered(shortId, ids, e, sameIsKept, x.slots, x.have, s', have')
    ensures Hand(s', have') == OneOffer(shortId, ids, e, sameIsKept, x)
  {
  }

  /** Two of the first n entries ask for slot p. */
  ghost predicate Twice(shortId: ShortId, ids: map<int, nat>, entries: seq<Entry>, n: nat, p: nat) {
    exists j, k :: 0 <= j < k < n <= |entries| && Hits(shortId, ids, entries[j], p) && Hits(shortId, ids, entries[k], p)
  }

  lemma TwiceNext(shortId: ShortId, ids: map<int, nat>, entries: seq<Entry>, n: nat, p: nat)
    requires n < |entries|
    ensures Twice(shortId, ids, entries, n + 1, p) <==>
            Twice(shortId, ids, entries, n, p) || (Asked(shortId, ids, entries, n, p) && Hits(shortId, ids, entries[n], p))
  {
    if Twice(shortId, ids, entries, n, p) {
      var j, k :| 0 <= j < k < n && Hits(shortId, ids, entries[j], p) && Hits(shortId, ids, entries[k], p);
      assert 0 <= j < k < n + 1;
    }
    if Asked(shortId, ids, entries, n, p) && Hits(shortId, ids, entries[n], p) {
      var j :| 0 <= j < n && Hits(shortId, ids, entries[j], p);
      assert 0 <= j < n < n + 1;
    }
  }

  /** After the mempool a slot is filled if and only if exactly one entry asked for it. */
  lemma {:induction false} PoolLaw(shortId: ShortId, ids: map<int, nat>, pool: seq<Entry>, n: nat, x: Hand, p: nat)
    requires n <= |pool| && p < |x.slots| == |x.have| && !x.have[p] && x.slots[p].None?
    ensures var y := Offering(shortId, ids, pool, n, false, x);
            && (y.have[p] <==> Asked(shortId, ids, pool, n, p))
            && (y.slots[p].Some? <==> Asked(shortId, ids, pool, n, p) && !Twice(shortId, ids, pool, n, p))
            && (y.slots[p].Some? ==> Supplied(shortId, ids, pool[..n], p, y.slots[p].value))
    decreases n
  {
    if n > 0 {
      PoolLaw(shortId, ids, pool, n - 1, x, p);
      AskedNext(shortId, ids, pool, n - 1, p);
      TwiceNext(shortId, ids, pool, n - 1, p);
      SuppliedNext(shortId, ids, pool, n - 1, p, Offering(shortId, ids, pool, n - 1, false, x).slots[p]);
      assert pool[..n][n - 1] == pool[n - 1];
    }
  }

  lemma SuppliedNext(shortId: ShortId, ids: map<int, nat>, entries: seq<Entry>, n: nat, p: nat, t: Option<Tx>)
    requires n < |entries|
    ensures t.Some? && Supplied(shortId, ids, entries[..n], p, t.value) ==> Supplied(shortId, ids, entries[..n + 1], p, t.value)
  {
    if t.Some? && Supplied(shortId, ids, entries[..n], p, t.value) {
      var k :| 0 <= k < |entries[..n]| && Hits(shortId, ids, entries[..n][k], p) && entries[..n][k].tx == t.value;
      assert entries[..n + 1][k] == entries[..n][k];
    }
  }

  /** All of the first n entries that ask for slot p have one witness hash. */
  ghost predicate Unanimous(shortId: ShortId, ids: map<int, nat>, entries: seq<Entry>, n: nat, p: nat, w: int) {
    forall k | 0 <= k < n <= |entries| && Hits(shortId, ids, entries[k], p) :: entries[k].tx.witnessHash == w
  }

  ghost predicate Agreed(shortId: ShortId, ids: map<int, nat>, entries: seq<Entry>, n: nat, p: nat) {
    exists w :: Unanimous(shortId, ids, entries, n, p, w)
  }

  /** What the extra transactions make of a slot: they fill one that nobody asked for and confirm one that is filled,
      as long as they agree. */
  ghost predicate Confirmed(shortId: ShortId, ids: map<int, nat>, extra: seq<Entry>, n: nat, p: nat, had: bool, was: Option<Tx>, now: Option<Tx>) {
    if had && was.Some? then now == if Unanimous(shortId, ids, extra, n, p, was.value.witnessHash) then was else None
    else if had || !Asked(shortId, ids, extra, n, p) then now == was
    else now.Some? <==> Agreed(shortId, ids, extra, n, p)
  }

  lemma {:induction false} ExtraLaw(shortId: ShortId, ids: map<int, nat>, extra: seq<Entry>, n: nat, x: Hand, p: nat)
    requires n <= |extra| && p < |x.slots| == |x.have| && (!x.have[p] ==> x.slots[p].None?)
    ensures var y := Offering(shortId, ids, extra, n, true, x);
            && (y.have[p] <==> x.have[p] || Asked(shortId, ids, extra, n, p))
            && (y.slots[p].Some? ==> Unanimous(shortId, ids, extra, n, p, y.slots[p].value.witnessHash))
            && Confirmed(shortId, ids, extra, n, p, x.have[p], x.slots[p], y.slots[p])
    decreases n
  {
    if n > 0 {
      ExtraLaw(shortId, ids, extra, n - 1, x, p);
      AskedNext(shortId, ids, extra, n - 1, p);
      ExtraStep(shortId, ids, extra, n - 1, x, Offering(shortId, ids, extra, n - 1, true, x), p);
    }
  }

  lemma UnanimousNext(shortId: ShortId, ids: map<int, nat>, entries: seq<Entry>, n: nat, p: nat, w: int)
    requires n < |entries|
    ensures Unanimous(shortId, ids, entries, n + 1, p, w) <==>
            Unanimous(shortId, ids, entries, n, p, w) && (Hits(shortId, ids, entries[n], p) ==> entries[n].tx.witnessHash == w)
  {
  }

  /** One witness hash at most can be unanimous for a slot that is asked for. */
  lemma OneVoice(shortId: ShortId, ids: map<int, nat>, entries: seq<Entry>, n: nat, p: nat, v: int, w: int)
    requires Asked(shortId, ids, entries, n, p) && Unanimous(shortId, ids, entries, n, p, v) && Unanimous(shortId, ids, entries, n, p, w)
    ensures v == w
  {
    var k :| 0 <= k < n <= |entries| && Hits(shortId, ids, entries[k], p);
  }

  lemma ExtraStep(shortId: ShortId, ids: map<int, nat>, extra: seq<Entry>, n: nat, x: Hand, z: Hand, p: nat)
    requires n < |extra| && p < |x.slots| == |x.have| == |z.slots| == |z.have| && (!x.have[p] ==> x.slots[p].None?)
    requires z.have[p] <==> x.have[p] || Asked(shortId, ids, extra, n, p)
    requires z.slots[p].Some? ==> Unanimous(shortId, ids, extra, n, p, z.slots[p].value.witnessHash)
    requires Confirmed(shortId, ids, extra, n, p, x.have[p], x.slots[p], z.slots[p])
    ensures var y := OneOffer(shortId, ids, extra[n], true, z);
            && (y.slots[p].Some? ==> Unanimous(shortId, ids, extra, n + 1, p, y.slots[p].value.witnessHash))
            && Confirmed(shortId, ids, extra, n + 1, p, x.have[p], x.slots[p], y.slots[p])
  {
    AskedNext(shortId, ids, extra, n, p);
    if x.have[p] {
      if x.slots[p].Some? { UnanimousNext(shortId, ids, extra, n, p, x.slots[p].value.witnessHash); }
    } else {
      FirstStep(shortId, ids, extra, n, z, p);
    }
  }

  /** The same for a slot that nobody in the mempool asked for. */
  lemma FirstStep(shortId: ShortId, ids: map<int, nat>, extra: seq<Entry>, n: nat, z: Hand, p: nat)
    requires n < |extra| && p < |z.slots| == |z.have| && (z.have[p] <==> Asked(shortId, ids, extra, n, p))
    requires z.slots[p].Some? ==> Unanimous(shortId, ids, extra, n, p, z.slots[p].value.witnessHash)
    requires if Asked(shortId, ids, extra, n, p) then z.slots[p].Some? <==> Agreed(shortId, ids, extra, n, p) else z.slots[p].None?
    ensures var y := OneOffer(shortId, ids, extra[n], true, z);
            && (y.slots[p].Some? ==> Unanimous(shortId, ids, extra, n + 1, p, y.slots[p].value.witnessHash))
            && if Asked(shortId, ids, extra, n + 1, p) then y.slots[p].Some? <==> Agreed(shortId, ids, extra, n + 1, p)
               else y.slots[p].None?
  {
    var e, y := extra[n], OneOffer(shortId, ids, extra[n], true, z);
    AskedNext(shortId, ids, extra, n, p);
    if y.slots[p].Some? {
      UnanimousNext(shortId, ids, extra, n, p, y.slots[p].value.witnessHash);
      assert Unanimous(shortId, ids, extra, n + 1, p, y.slots[p].value.witnessHash);
    } else if Agreed(shortId, ids, extra, n + 1, p) {
      var w :| Unanimous(shortId, ids, extra, n + 1, p, w);
      UnanimousNext(shortId, ids, extra, n, p, w);
      if Asked(shortId, ids, extra, n, p) && z.slots[p].Some? {
        OneVoice(shortId, ids, extra, n, p, w, z.slots[p].value.witnessHash);
      }
    }
  }

  /** The law for the slots that are not prefilled, when the scans went over n1 entries of the mempool and n2 of the
      extra ones: a slot is filled if and only if it was asked for, not by two in the mempool, and without disagreement
      of an extra one. */
  ghost predicate FilledByLaw(shortId: ShortId, ids: map<int, nat>, pool: seq<Entry>, n1: nat, extra: seq<Entry>, n2: nat, p: nat, t: Option<Tx>) {
    if Twice(shortId, ids, pool, n1, p) then t.None?
    else if Asked(shortId, ids, pool, n1, p) then
      exists k :: 0 <= k < n1 <= |pool| && Hits(shortId, ids, pool[k], p)
                  && t == if Unanimous(shortId, ids, extra, n2, p, pool[k].tx.witnessHash) then Some(pool[k].tx) else None
    else if Asked(shortId, ids, extra, n2, p) then t.Some? <==> Agreed(shortId, ids, extra, n2, p)
    else t.None?
  }

  lemma BothScans(shortId: ShortId, ids: map<int, nat>, pool: seq<Entry>, n1: nat, extra: seq<Entry>, n2: nat, x: Hand, p: nat)
    requires n1 <= |pool| && n2 <= |extra| && p < |x.slots| == |x.have| && !x.have[p] && x.slots[p].None?
    ensures FilledByLaw(shortId, ids, pool, n1, extra, n2, p,
                        Offering(shortId, ids, extra, n2, true, Offering(shortId, ids, pool, n1, false, x)).slots[p])
  {
    var y := Offering(shortId, ids, pool, n1, false, x);
    PoolLaw(shortId, ids, pool, n1, x, p);
    ExtraLaw(shortId, ids, extra, n2, y, p);
    if y.slots[p].Some? {
      var k :| 0 <= k < |pool[..n1]| && Hits(shortId, ids, pool[..n1][k], p) && pool[..n1][k].tx == y.slots[p].value;
      assert pool[..n1][k] == pool[k];
    }
  }

  /** The state of a scan after i entries; without conflicts every slot asked for is filled. */
  ghost predicate Scanned(shortId: ShortId, ids: map<int, nat>, src: seq<Entry>, s0: Slots, x: Hand, entries: seq<Entry>, i: nat,
                          sameIsKept: bool, y: Hand, found: int)
    requires i <= |entries| && |x.slots| == |x.have|
  {
    && Progress(shortId, ids, src, s0, y.slots, y.have, found) && y == Offering(shortId, ids, entries, i, sameIsKept, x)
    && (Quiet(shortId, ids, src, entries, x.have, sameIsKept) && Solid(x.slots, x.have) ==>
          && Solid(y.slots, y.have) && FilledAsAsked(shortId, ids, entries, i, x.slots, y.slots)
          && (!sameIsKept ==> AskedFor(shortId, ids, entries, i, y.have)))
  }

  lemma ScannedNext(shortId: ShortId, ids: map<int, nat>, src: seq<Entry>, s0: Slots, x: Hand, entries: seq<Entry>, i: nat,
                    sameIsKept: bool, y: Hand, found: int, z: Hand, found': int)
    requires i < |entries| && entries[i] in src && |x.slots| == |x.have| && Targets(ids, s0)
    requires Scanned(shortId, ids, src, s0, x, entries, i, sameIsKept, y, found) && Progress(shortId, ids, src, s0, z.slots, z.have, found')
    requires Offered(shortId, ids, entries[i], sameIsKept, y.slots, y.have, z.slots, z.have)
    ensures Scanned(shortId, ids, src, s0, x, entries, i + 1, sameIsKept, z, found')
  {
    OfferedIs(shortId, ids, entries[i], sameIsKept, y, z.slots, z.have);
    if Quiet(shortId, ids, src, entries, x.have, sameIsKept) && Solid(x.slots, x.have) {
      QuietOffer(shortId, ids, src, s0, entries, i, y.slots, y.have, found, z.slots, z.have, sameIsKept);
      QuietStep(shortId, ids, entries, i, x.slots, y.slots, z.slots, y.have, z.have, sameIsKept);
    }
  }

  // the loop over the mempool, or over the extra transactions
  method Scan(shortId: ShortId, ids: map<int, nat>, ghost src: seq<Entry>, ghost s0: Slots, s: Slots, have: seq<bool>,
              found: nat, entries: seq<Entry>, sameIsKept: bool)
    returns (s': Slots, have': seq<bool>, found': nat, ghost scanned: nat)
    requires Targets(ids, s0) && Progress(shortId, ids, src, s0, s, have, found)
    requires forall e | e in entries :: e in src
    ensures scanned <= |entries| && (scanned == |entries| || found' == |ids|)
    ensures |s| == |have| && Scanned(shortId, ids, src, s0, Hand(s, have), entries, scanned, sameIsKept, Hand(s', have'), found')
  {
    s', have', found', scanned := s, have, found, 0;
    var i := 0;
    while i < |entries|
      invariant 0 <= i <= |entries| && scanned == i
      invariant Scanned(shortId, ids, src, s0, Hand(s, have), entries, i, sameIsKept, Hand(s', have'), found')
    {
      ghost var was, wasFound := Hand(s', have'), found';
      s', have', found' := Offer(shortId, ids, src, s0, s', have', found', entries[i], sameIsKept);
      ScannedNext(shortId, ids, src, s0, Hand(s, have), entries, i, sameIsKept, was, wasFound, Hand(s', have'), found');
      i, scanned := i + 1, scanned + 1;
      if found' == |ids| {
        break;
      }
    }
  }

  // ---------- putting the scans together ----------

  lemma {:induction false} AllFilled(s: Slots, p: nat)
    requires Filled(s) == |s| && p < |s|
    ensures s[p].Some?
    decreases |s|
  {
    if p < |s| - 1 { AllFilled(s[..|s| - 1], p); }
  }

  lemma IndexedIds(shorttxids: seq<int>, s: Slots, ids: map<int, nat>)
    requires Indexed(shorttxids, |shorttxids|, s, ids)
    ensures Targets(ids, s) && OneToOne(ids)
  {
    forall a, b | a in ids && b in ids && ids[a] == ids[b] ensures a == b {
      assert Listed(shorttxids, |shorttxids|, a) && Listed(shorttxids, |shorttxids|, b);
      var i :| 0 <= i < |shorttxids| && shorttxids[i] == a;
      var j :| 0 <= j < |shorttxids| && shorttxids[j] == b;
      assert IsEmptySlot(s, i, ids[a]) && IsEmptySlot(s, j, ids[b]);
    }
  }

  /** In the end a slot is filled exactly when it was prefilled or some transaction at hand asks for it. */
  lemma AvailableIff(shortId: ShortId, ids: map<int, nat>, pool: seq<Entry>, extra: seq<Entry>, s0: Slots, s1: Slots, s2: Slots,
                     have: seq<bool>, found1: int, found2: int, n1: nat, n2: nat, p: nat)
    requires |s0| - Filled(s0) == |ids| && p < |s0| == |s1| == |s2|
    requires Progress(shortId, ids, pool + extra, s0, s2, have, found2) && Filled(s1) == Filled(s0) + found1
    requires n1 <= |pool| && FilledAsAsked(shortId, ids, pool, n1, s0, s1) && (n1 == |pool| || found1 == |ids|)
    requires n2 <= |extra| && FilledAsAsked(shortId, ids, extra, n2, s1, s2) && (n2 == |extra| || found2 == |ids|)
    ensures s2[p].Some? <==> s0[p].Some? || Asked(shortId, ids, pool + extra, |pool + extra|, p)
  {
    var src := pool + extra;
    assert SlotOk(shortId, ids, src, s0, s2, have, p);
    if Asked(shortId, ids, src, |src|, p) {
      var k :| 0 <= k < |src| && Hits(shortId, ids, src[k], p);
      if found2 == |ids| {
        AllFilled(s2, p);
      } else if found1 == |ids| {
        AllFilled(s1, p);
      } else if k < |pool| {
        assert Asked(shortId, ids, pool, |pool|, p) by { assert Hits(shortId, ids, pool[k], p); }
      } else {
        assert Asked(shortId, ids, extra, |extra|, p) by { assert Hits(shortId, ids, extra[k - |pool|], p); }
      }
    }
  }

  /** Every slot to be filled was asked for exactly once, so the rest of the mempool was not looked at. */
  ghost predicate EachOnce(shortId: ShortId, ids: map<int, nat>, pool: seq<Entry>, n: nat, s0: Slots) {
    forall p | 0 <= p < |s0| && s0[p].None? :: Asked(shortId, ids, pool, n, p) && !Twice(shortId, ids, pool, n, p)
  }

  lemma AllOnce(shortId: ShortId, ids: map<int, nat>, pool: seq<Entry>, n: nat, s0: Slots, none: seq<bool>, s1: Slots)
    requires n <= |pool| && |s0| == |none| && (forall p | 0 <= p < |none| :: !none[p]) && Filled(s1) == |s1| == |s0|
    requires Offering(shortId, ids, pool, n, false, Hand(s0, none)).slots == s1
    ensures EachOnce(shortId, ids, pool, n, s0)
  {
    forall p | 0 <= p < |s0| && s0[p].None? ensures Asked(shortId, ids, pool, n, p) && !Twice(shortId, ids, pool, n, p) {
      PoolLaw(shortId, ids, pool, n, Hand(s0, none), p);
      AllFilled(s1, p);
    }
  }

  // the two scans of InitData
  method TakeAtHand(shortId: ShortId, ids: map<int, nat>, pool: seq<Entry>, extra: seq<Entry>, s0: Slots)
    returns (s: Slots, found: nat, ghost have: seq<bool>, ghost n1: nat, ghost n2: nat)
    requires Targets(ids, s0) && OneToOne(ids) && |s0| - Filled(s0) == |ids|
    ensures Progress(shortId, ids, pool + extra, s0, s, have, found)
    ensures n1 <= |pool| && (n1 == |pool| || EachOnce(shortId, ids, pool, n1, s0)) && n2 <= |extra| && (n2 == |extra| || found == |ids|)
    ensures forall p | 0 <= p < |s0| && s0[p].None? :: FilledByLaw(shortId, ids, pool, n1, extra, n2, p, s[p])
    ensures DistinctIds(shortId, pool) && SameWitness(shortId, pool + extra) ==>
      forall p | 0 <= p < |s0| ::
        s[p].Some? <==> s0[p].Some? || Asked(shortId, ids, pool + extra, |pool + extra|, p)
  {
    ghost var src := pool + extra;
    var none := seq(|s0|, _ => false);
    assert Progress(shortId, ids, src, s0, s0, none, 0);
    var s1, have1, found1, have2;
    s1, have1, found1, n1 := Scan(shortId, ids, src, s0, s0, none, 0, pool, false);
    s, have2, found, n2 := Scan(shortId, ids, src, s0, s1, have1, found1, extra, true);
    have := have2;
    if found1 == |ids| { AllOnce(shortId, ids, pool, n1, s0, none, s1); }
    forall p | 0 <= p < |s0| && s0[p].None? ensures FilledByLaw(shortId, ids, pool, n1, extra, n2, p, s[p]) {
      BothScans(shortId, ids, pool, n1, extra, n2, Hand(s0, none), p);
    }
    if DistinctIds(shortId, pool) && SameWitness(shortId, src) {
      assert Quiet(shortId, ids, src, pool, none, false) && Solid(s0, none);
      assert Quiet(shortId, ids, src, extra, have1, true);
      forall p | 0 <= p < |s0|
        ensures s[p].Some? <==> s0[p].Some? || Asked(shortId, ids, src, |src|, p)
      {
        AvailableIff(shortId, ids, pool, extra, s0, s1, s, have, found1, found, n1, n2, p);
      }
    }
  }

  // ---------- the receiving side ----------

  /** Every filled slot is prefilled, or holds a transaction whose short id asks for just this slot. */
  ghost predicate Sourced(cmpct: CompactBlock, shortId: ShortId, src: seq<Entry>, s0: Slots, ids: map<int, nat>, s: Slots) {
    && |s0| == |s| == |cmpct.shorttxids| + |cmpct.prefilledtxn|
    && Placed(cmpct.prefilledtxn, |cmpct.prefilledtxn|, s0)
    && Indexed(cmpct.shorttxids, |cmpct.shorttxids|, s0, ids)
    && (forall p | 0 <= p < |s| && s0[p].Some? :: s[p] == s0[p])
    && (forall p | 0 <= p < |s| && s0[p].None? && s[p].Some? :: Supplied(shortId, ids, src, p, s[p].value))
  }

  /** The messages InitData rejects outright. */
  ghost predicate Acceptable(cmpct: CompactBlock) {
    && 0 < |cmpct.shorttxids| + |cmpct.prefilledtxn| <= MAX_COUNT
    && forall i | 0 <= i < |cmpct.prefilledtxn| :: PositionOk(cmpct, i)
  }

  lemma ProgressIsSourced(cmpct: CompactBlock, shortId: ShortId, src: seq<Entry>, s0: Slots, ids: map<int, nat>, s: Slots,
                          have: seq<bool>, found: int)
    requires |s0| == |cmpct.shorttxids| + |cmpct.prefilledtxn| && Placed(cmpct.prefilledtxn, |cmpct.prefilledtxn|, s0)
    requires Indexed(cmpct.shorttxids, |cmpct.shorttxids|, s0, ids) && Progress(shortId, ids, src, s0, s, have, found)
    ensures Sourced(cmpct, shortId, src, s0, ids, s)
  {
    forall p | 0 <= p < |s| && s0[p].Some? ensures s[p] == s0[p] {
      assert SlotOk(shortId, ids, src, s0, s, have, p);
    }
    forall p | 0 <= p < |s| && s0[p].None? && s[p].Some? ensures Supplied(shortId, ids, src, p, s[p].value) {
      assert SlotOk(shortId, ids, src, s0, s, have, p);
    }
  }

  /** How many slots before p are empty. */
  ghost function EmptyBefore(s: Slots, p: nat): int
    requires p <= |s|
  {
    p - Filled(s[..p])
  }

  /** vtx is s with its gaps filled from missing, in order. */
  ghost predicate Completed(s: Slots, missing: seq<Tx>, n: nat, vtx: seq<Tx>)
    requires n <= |s|
  {
    |vtx| == n && forall p | 0 <= p < n :: CompletedAt(s, missing, p, vtx[p])
  }

  ghost predicate CompletedAt(s: Slots, missing: seq<Tx>, p: nat, t: Tx)
    requires p < |s|
  {
    if s[p].Some? then t == s[p].value
    else 0 <= EmptyBefore(s, p) < |missing| && t == missing[EmptyBefore(s, p)]
  }

  class PartiallyDownloadedBlock {
    var hasHeader: bool
    var txn_available: Slots
    var prefilled_count: nat
    var mempool_count: nat

    constructor ()
      ensures !hasHeader && txn_available == []
    {
      hasHeader, txn_available, prefilled_count, mempool_count := false, [], 0, 0;
    }

    // InitData
    method InitData(cmpct: CompactBlock, headerIsNull: bool, shortId: ShortId, pool: seq<Entry>, extra: seq<Entry>, uneven: nat -> bool)
      returns (status: Status, ghost s0: Slots, ghost ids: map<int, nat>, ghost n1: nat, ghost n2: nat)
      modifies this
      ensures status == Invalid <==> headerIsNull || old(hasHeader) || old(txn_available) != [] || !Acceptable(cmpct)
      ensures status != Invalid ==>
        (status == Ok <==> Distinct(cmpct.shorttxids, |cmpct.shorttxids|) && forall i: nat | i < |cmpct.shorttxids| :: !uneven(i))
      ensures status == Ok ==>
        && hasHeader && Distinct(cmpct.shorttxids, |cmpct.shorttxids|)
        && Sourced(cmpct, shortId, pool + extra, s0, ids, txn_available)
        && prefilled_count == |cmpct.prefilledtxn| && Filled(txn_available) == prefilled_count + mempool_count
      ensures status == Ok ==>
        && n1 <= |pool| && (n1 == |pool| || EachOnce(shortId, ids, pool, n1, s0)) && n2 <= |extra| && (n2 == |extra| || mempool_count == |ids|)
        && forall p | 0 <= p < |s0| && s0[p].None? :: FilledByLaw(shortId, ids, pool, n1, extra, n2, p, txn_available[p])
      ensures status == Ok && DistinctIds(shortId, pool) && SameWitness(shortId, pool + extra) ==>
        forall p | 0 <= p < |txn_available| ::
          txn_available[p].Some? <==> s0[p].Some? || Asked(shortId, ids, pool + extra, |pool + extra|, p)
    {
      s0, ids, n1, n2 := [], map[], 0, 0;
      if headerIsNull || (|cmpct.shorttxids| == 0 && |cmpct.prefilledtxn| == 0) {
        return Invalid, s0, ids, n1, n2;
      }
      if |cmpct.shorttxids| + |cmpct.prefilledtxn| > MAX_COUNT {
        return Invalid, s0, ids, n1, n2;
      }
      if hasHeader || txn_available != [] {
        return Invalid, s0, ids, n1, n2;
      }
      hasHeader := true;
      var ok, placed := PlacePrefilled(cmpct);
      txn_available := placed;
      if !ok {
        return Invalid, s0, ids, n1, n2;
      }
      prefilled_count := |cmpct.prefilledtxn|;
      var indexed, shorttxids := IndexShortIds(cmpct.shorttxids, placed, uneven);
      s0, ids := placed, shorttxids;
      if !indexed {
        return Failed, s0, ids, n1, n2;
      }
      IndexedIds(cmpct.shorttxids, placed, shorttxids);
      ghost var have;
      txn_available, mempool_count, have, n1, n2 := TakeAtHand(shortId, shorttxids, pool, extra, placed);
      ProgressIsSourced(cmpct, shortId, pool + extra, s0, ids, txn_available, have, mempool_count);
      return Ok, s0, ids, n1, n2;
    }

    // FillBlock
    method FillBlock(vtx_missing: seq<Tx>, check: seq<Tx> -> Verdict) returns (status: Status, vtx: seq<Tx>)
      modifies this
      ensures status == Invalid <==> !old(hasHeader) || |vtx_missing| != old(|txn_available| - Filled(txn_available))
      ensures status != Invalid ==>
        && Completed(old(txn_available), vtx_missing, old(|txn_available|), vtx)
        && status == match check(vtx) case Sound => Ok case Mutated => Failed case Bad => CheckBlockFailed
      ensures old(hasHeader) && |vtx_missing| >= old(|txn_available| - Filled(txn_available)) ==>
        !hasHeader && txn_available == []
    {
      vtx := [];
      if !hasHeader {
        return Invalid, vtx;
      }
      ghost var s := txn_available;
      var offset := 0;
      for i := 0 to |txn_available|
        invariant |txn_available| == |s| && hasHeader && offset == EmptyBefore(s, i) <= |vtx_missing|
        invariant forall p | i <= p < |s| :: txn_available[p] == s[p]
        invariant Completed(s, vtx_missing, i, vtx)
      {
        FilledStep(s, i);
        if txn_available[i].None? {
          if |vtx_missing| <= offset {
            TooFew(s, i);
            return Invalid, vtx;
          }
          vtx := vtx + [vtx_missing[offset]];
          offset := offset + 1;
        } else {
          vtx := vtx + [txn_available[i].value];
          txn_available := txn_available[i := None];
        }
      }
      assert s[..|s|] == s;
      hasHeader := false;
      txn_available := [];
      if |vtx_missing| != offset {
        return Invalid, vtx;
      }
      var verdict := check(vtx);
      if verdict != Sound {
        return if verdict == Mutated then Failed else CheckBlockFailed, vtx;
      }
      return Ok, vtx;
    }
  }

  /** An empty slot with i empty ones before it makes more than i. */
  lemma TooFew(s: Slots, i: nat)
    requires i < |s| && s[i].None?
    ensures EmptyBefore(s, i) < |s| - Filled(s)
  {
    FilledStep(s, i);
    EmptyMono(s, i + 1, |s|);
    assert s[..|s|] == s;
  }

  // ---------- the sending side ----------

  /** A block whose last transaction is the HogEx exactly when it carries MWEB data. */
  ghost predicate WellShaped(vtx: seq<Tx>, mweb: bool) {
    && 1 <= |vtx| <= UINT16_MAX && (mweb ==> |vtx| >= 2)
    && (forall i | 0 <= i < |vtx| :: !vtx[i].isNull)
    && forall i | 1 <= i < |vtx| :: vtx[i].isHogEx <==> mweb && i == |vtx| - 1
  }

  ghost function ShortCount(vtx: seq<Tx>, mweb: bool): int {
    if mweb then |vtx| - 2 else |vtx| - 1
  }

  ghost predicate Encodes(vtx: seq<Tx>, mweb: bool, shortId: ShortId, cmpct: CompactBlock) {
    && |vtx| >= 1 && (mweb ==> |vtx| >= 2)
    && |cmpct.shorttxids| == ShortCount(vtx, mweb)
    && (forall i | 0 <= i < |cmpct.shorttxids| :: cmpct.shorttxids[i] == shortId(vtx[i + 1].hash))
    && cmpct.prefilledtxn == [Prefilled(0, vtx[0])] + (if mweb then [Prefilled(|vtx| - 2, vtx[|vtx| - 1])] else [])
  }

  // CBlockHeaderAndShortTxIDs(block)
  method Encode(vtx: seq<Tx>, mweb: bool, shortId: ShortId) returns (cmpct: CompactBlock)
    requires vtx != []
    ensures cmpct == CompactBlock(ShortIds(vtx, shortId, |vtx|), PrefilledOf(vtx, mweb))
    ensures WellShaped(vtx, mweb) ==> Encodes(vtx, mweb, shortId, cmpct)
  {
    var prefilledtxn := [Prefilled(0, vtx[0])];
    if mweb {
      prefilledtxn := prefilledtxn + [Prefilled((|vtx| - 2) % 0x1_0000, vtx[|vtx| - 1])];
    }
    var shorttxids: seq<int> := [];
    for i := 1 to |vtx|
      invariant shorttxids == ShortIds(vtx, shortId, i)
    {
      if !vtx[i].isHogEx {
        shorttxids := shorttxids + [shortId(vtx[i].hash)];
      }
    }
    if WellShaped(vtx, mweb) { ShortIdsOf(vtx, mweb, shortId, |vtx|); }
    return CompactBlock(shorttxids, prefilledtxn);
  }

  /** The short ids of the transactions before n, except the coinbase and integrating transactions. */
  ghost function ShortIds(vtx: seq<Tx>, shortId: ShortId, n: nat): seq<int>
    requires n <= |vtx|
  {
    if n <= 1 then [] else ShortIds(vtx, shortId, n - 1) + if vtx[n - 1].isHogEx then [] else [shortId(vtx[n - 1].hash)]
  }

  /** The coinbase, and the last transaction at its 16-bit distance. */
  ghost function PrefilledOf(vtx: seq<Tx>, mweb: bool): seq<Prefilled>
    requires vtx != []
  {
    [Prefilled(0, vtx[0])] + if mweb then [Prefilled((|vtx| - 2) % 0x1_0000, vtx[|vtx| - 1])] else []
  }

  lemma {:induction false} ShortIdsOf(vtx: seq<Tx>, mweb: bool, shortId: ShortId, n: nat)
    requires WellShaped(vtx, mweb) && 1 <= n <= |vtx|
    ensures |ShortIds(vtx, shortId, n)| == if mweb && n == |vtx| then n - 2 else n - 1
    ensures forall i | 0 <= i < |ShortIds(vtx, shortId, n)| :: ShortIds(vtx, shortId, n)[i] == shortId(vtx[i + 1].hash)
    decreases n
  {
    if n > 1 { ShortIdsOf(vtx, mweb, shortId, n - 1); }
  }

  /** The prefilled transactions of an encoded block are the first and, with MWEB data, the last. */
  lemma EncodedPositions(vtx: seq<Tx>, mweb: bool, shortId: ShortId, cmpct: CompactBlock)
    requires WellShaped(vtx, mweb) && Encodes(vtx, mweb, shortId, cmpct)
    ensures Acceptable(cmpct) && |cmpct.shorttxids| + |cmpct.prefilledtxn| == |vtx|
    ensures Position(cmpct.prefilledtxn, 0) == 0 && (mweb ==> Position(cmpct.prefilledtxn, 1) == |vtx| - 1)
  {
    var f := cmpct.prefilledtxn;
    assert f[0].index == 0 && Position(f, -1) == -1;
    if mweb { assert f[1] == Prefilled(|vtx| - 2, vtx[|vtx| - 1]); }
    forall i | 0 <= i < |f| ensures PositionOk(cmpct, i) {
    }
  }

  lemma EncodedSlots(vtx: seq<Tx>, mweb: bool, shortId: ShortId, cmpct: CompactBlock, s0: Slots)
    requires WellShaped(vtx, mweb) && Encodes(vtx, mweb, shortId, cmpct)
    requires |s0| == |vtx| && Placed(cmpct.prefilledtxn, |cmpct.prefilledtxn|, s0)
    ensures forall p | 0 <= p < |s0| :: s0[p] == if p == 0 || (mweb && p == |vtx| - 1) then Some(vtx[p]) else None
  {
    var f := cmpct.prefilledtxn;
    EncodedPositions(vtx, mweb, shortId, cmpct);
    assert InSlot(f, 0, s0);
    if mweb { assert InSlot(f, 1, s0); }
    forall p | 0 <= p < |s0| && s0[p].Some? ensures p == 0 || (mweb && p == |vtx| - 1) {
      var i :| 0 <= i < |f| && Position(f, i) == p;
    }
  }

  lemma {:induction false} OneFilled(s0: Slots, p: nat)
    requires 1 <= p <= |s0| && s0[0].Some? && forall q | 1 <= q < p :: s0[q].None?
    ensures Filled(s0[..p]) == 1
    decreases p
  {
    FilledStep(s0, p - 1);
    if p > 1 {
      OneFilled(s0, p - 1);
    } else {
      assert s0[..0] == [];
    }
  }

  /** Short id i of an encoded block belongs to slot i + 1. */
  lemma EncodedIndex(vtx: seq<Tx>, mweb: bool, shortId: ShortId, cmpct: CompactBlock, s0: Slots, i: nat, p: nat)
    requires WellShaped(vtx, mweb) && Encodes(vtx, mweb, shortId, cmpct)
    requires |s0| == |vtx| && Placed(cmpct.prefilledtxn, |cmpct.prefilledtxn|, s0) && IsEmptySlot(s0, i, p)
    ensures p == i + 1
  {
    EncodedSlots(vtx, mweb, shortId, cmpct, s0);
    OneFilled(s0, p);
  }

  /** A transaction at hand that has the short id of a block transaction is that transaction. */
  ghost predicate NoCollision(shortId: ShortId, vtx: seq<Tx>, src: seq<Entry>) {
    && (forall i, j | 0 <= i < j < |vtx| :: shortId(vtx[i].hash) != shortId(vtx[j].hash))
    && (forall k, j | 0 <= k < |src| && 0 <= j < |vtx| :: shortId(src[k].hash) == shortId(vtx[j].hash) ==> src[k].tx == vtx[j])
  }

  /** Without collisions every filled slot holds the block's own transaction. */
  lemma SlotsAreGenuine(vtx: seq<Tx>, mweb: bool, shortId: ShortId, cmpct: CompactBlock, src: seq<Entry>, s0: Slots,
                        ids: map<int, nat>, s: Slots, p: nat)
    requires WellShaped(vtx, mweb) && Encodes(vtx, mweb, shortId, cmpct) && NoCollision(shortId, vtx, src)
    requires Sourced(cmpct, shortId, src, s0, ids, s) && p < |s| == |vtx|
    ensures s[p].Some? ==> s[p].value == vtx[p]
  {
    EncodedSlots(vtx, mweb, shortId, cmpct, s0);
    if s0[p].None? && s[p].Some? {
      var k :| 0 <= k < |src| && Hits(shortId, ids, src[k], p) && src[k].tx == s[p].value;
      var id := shortId(src[k].hash);
      assert Listed(cmpct.shorttxids, |cmpct.shorttxids|, id);
      var i :| 0 <= i < |cmpct.shorttxids| && cmpct.shorttxids[i] == id;
      assert IsEmptySlot(s0, i, ids[cmpct.shorttxids[i]]);
      EncodedIndex(vtx, mweb, shortId, cmpct, s0, i, p);
    }
  }

  /** The block's transactions that are not available, in block order. */
  function Missing(s: Slots, vtx: seq<Tx>): seq<Tx>
    requires |s| == |vtx|
  {
    if s == [] then []
    else Missing(s[..|s| - 1], vtx[..|s| - 1]) + (if s[|s| - 1].Some? then [] else [vtx[|s| - 1]])
  }

  lemma {:induction false} MissingCount(s: Slots, vtx: seq<Tx>)
    requires |s| == |vtx|
    ensures |Missing(s, vtx)| == |s| - Filled(s)
    decreases |s|
  {
    if s != [] { MissingCount(s[..|s| - 1], vtx[..|s| - 1]); }
  }

  lemma {:induction false} MissingAt(s: Slots, vtx: seq<Tx>, p: nat)
    requires p < |s| == |vtx| && s[p].None?
    ensures 0 <= EmptyBefore(s, p) < |Missing(s, vtx)| && Missing(s, vtx)[EmptyBefore(s, p)] == vtx[p]
    decreases |s|
  {
    var k := |s| - 1;
    MissingCount(s[..k], vtx[..k]);
    if p < k {
      MissingAt(s[..k], vtx[..k], p);
      assert s[..k][..p] == s[..p];
    }
  }

  lemma CompletedIsBlock(s: Slots, vtx: seq<Tx>, got: seq<Tx>)
    requires |s| == |vtx| && Completed(s, Missing(s, vtx), |s|, got)
    requires forall p | 0 <= p < |s| && s[p].Some? :: s[p].value == vtx[p]
    ensures got == vtx
  {
    forall p | 0 <= p < |s| ensures got[p] == vtx[p] {
      assert CompletedAt(s, Missing(s, vtx), p, got[p]);
      if s[p].None? { MissingAt(s, vtx, p); }
    }
  }

  /** A block sent as a compact block comes back as it was, once the receiver is given what it lacks. */
  method Relay(vtx: seq<Tx>, mweb: bool, shortId: ShortId, pool: seq<Entry>, extra: seq<Entry>, uneven: nat -> bool,
               check: seq<Tx> -> Verdict)
    returns (first: Status, second: Status, got: seq<Tx>)
    requires WellShaped(vtx, mweb) && NoCollision(shortId, vtx, pool + extra)
    ensures first == Ok <==> forall i: nat | i < ShortCount(vtx, mweb) :: !uneven(i)
    ensures first == Ok ==> got == vtx && (second == Ok <==> check(vtx) == Sound)
  {
    var cmpct := Encode(vtx, mweb, shortId);
    EncodedPositions(vtx, mweb, shortId, cmpct);
    var part := new PartiallyDownloadedBlock();
    ghost var s0, ids, n1, n2;
    first, s0, ids, n1, n2 := part.InitData(cmpct, false, shortId, pool, extra, uneven);
    if first != Ok {
      return first, Invalid, [];
    }
    var s := part.txn_available;
    forall p | 0 <= p < |s| && s[p].Some? ensures s[p].value == vtx[p] {
      SlotsAreGenuine(vtx, mweb, shortId, cmpct, pool + extra, s0, ids, s, p);
    }
    MissingCount(s, vtx);
    second, got := part.FillBlock(Missing(s, vtx), check);
    CompletedIsBlock(s, vtx, got);
  }
}
