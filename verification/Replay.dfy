/** Bringing the coin database back to one tip after a crash (src/validation.cpp, src/txdb.cpp). */
module Replay {
  import opened Coins
  import opened Connect
  import Chain

  // ---------- undoing and redoing on a mixture of coins ----------

  lemma SameUtxo(u: Utxo, v: Utxo)
    requires Mixed(u, v, v)
    ensures u == v
  {
    forall o ensures (o in u <==> o in v) && (o in u ==> u[o] == v[o]) {
      assert SameAt(o, u, v);
    }
  }

  lemma MixedAt(m: Utxo, u: Utxo, v: Utxo, o: OutPoint)
    requires Mixed(m, u, v)
    ensures SameAt(o, m, u) || SameAt(o, m, v)
  {
  }

  lemma ConnectedAt(u: Utxo, tx: Tx, height: nat, o: OutPoint)
    ensures var c := Connected(u, tx, height);
            if o in Points(tx, |tx.vout|) then o in c && c[o] == CoinOf(tx, o.n, height)
            else if o in Taken(tx) then o !in c
            else SameAt(o, c, u)
  {
  }

  /** A transaction leaves the same at what it touches, whatever was there before. */
  lemma RedoMixed(m: Utxo, u: Utxo, v: Utxo, tx: Tx, height: nat)
    requires Mixed(m, u, v)
    ensures Mixed(Connected(m, tx, height), Connected(u, tx, height), v)
  {
    forall o ensures SameAt(o, Connected(m, tx, height), Connected(u, tx, height)) || SameAt(o, Connected(m, tx, height), v) {
      ConnectedAt(m, tx, height, o);
      ConnectedAt(u, tx, height, o);
      MixedAt(m, u, v, o);
    }
  }

  lemma {:induction false} RedoBlock(m: Utxo, u: Utxo, v: Utxo, b: Block, n: nat)
    requires Mixed(m, u, v) && n <= |b.vtx|
    ensures Mixed(Forward(m, b, n), Forward(u, b, n), v)
    decreases n
  {
    if n > 0 {
      RedoBlock(m, u, v, b, n - 1);
      RedoMixed(Forward(m, b, n - 1), Forward(u, b, n - 1), v, b.vtx[n - 1], b.height);
    }
  }

  lemma {:induction false} RestoredIs(u: Utxo, tx: Tx, j: nat)
    requires Fits(u, tx) && !tx.IsCoinBase() && j <= |tx.vin|
    ensures forall o | o in Restored(tx, Undo(u, tx), j) :: o in u && Restored(tx, Undo(u, tx), j)[o] == u[o]
    decreases |tx.vin| - j
  {
    if j < |tx.vin| { RestoredIs(u, tx, j + 1); }
  }

  /** The coins that undoing a transaction restores. */
  ghost function Back(b: Block, undo: BlockUndo, n: nat): Utxo
    requires n < |b.vtx| && SizesMatch(b, undo)
  {
    if n == 0 then map[] else Restored(b.vtx[n], undo[n - 1], 0)
  }

  lemma BackIs(u: Utxo, b: Block, n: nat)
    requires BlockFits(u, b) && n < |b.vtx| && SizesMatch(b, UndoOf(u, b))
    ensures var r := Back(b, UndoOf(u, b), n);
            r.Keys == Taken(b.vtx[n]) && forall o | o in r :: o in Forward(u, b, n) && r[o] == Forward(u, b, n)[o]
  {
    var tx, undo := b.vtx[n], UndoOf(u, b);
    assert TxFits(u, b, n);
    if n > 0 {
      assert undo[n - 1] == Undo(Forward(u, b, n), tx);
      RestoredKeys(tx, undo[n - 1], 0);
      RestoredIs(Forward(u, b, n), tx, 0);
    }
  }

  lemma UndoneAt(m: Utxo, u: Utxo, b: Block, n: nat, o: OutPoint)
    requires BlockFresh(u, b) && n < |b.vtx| && SizesMatch(b, UndoOf(u, b))
    ensures var r := Undone(m, b, UndoOf(u, b), n);
            if o in Taken(b.vtx[n]) + Points(b.vtx[n], |b.vtx[n].vout|) then SameAt(o, r, Forward(u, b, n)) else SameAt(o, r, m)
  {
    BackIs(u, b, n);
    FreshAt(u, b, n);
    assert TxFits(u, b, n);
    assert Undone(m, b, UndoOf(u, b), n) == m - Points(b.vtx[n], |b.vtx[n].vout|) + Back(b, UndoOf(u, b), n);
  }

  lemma UntouchedAt(u: Utxo, c: Utxo, tx: Tx, height: nat, o: OutPoint)
    requires c == Connected(u, tx, height)
    ensures o !in Taken(tx) + Points(tx, |tx.vout|) ==> SameAt(o, c, u)
  {
  }

  lemma UndoSizes(u: Utxo, b: Block)
    requires BlockFits(u, b)
    ensures SizesMatch(b, UndoOf(u, b))
  {
    forall n | 0 < n < |b.vtx| ensures |UndoOf(u, b)[n - 1]| == |b.vtx[n].vin| {
      assert TxFits(u, b, n);
    }
  }

  /** Undoing a transaction restores the coins before it at what it touches, whatever was there. */
  lemma UndoMixed(m: Utxo, u: Utxo, v: Utxo, b: Block, n: nat)
    requires BlockFresh(u, b) && n < |b.vtx| && SizesMatch(b, UndoOf(u, b)) && Mixed(m, Forward(u, b, n + 1), v)
    ensures Mixed(Undone(m, b, UndoOf(u, b), n), Forward(u, b, n), v)
  {
    var r, before, after := Undone(m, b, UndoOf(u, b), n), Forward(u, b, n), Forward(u, b, n + 1);
    forall o ensures SameAt(o, r, before) || SameAt(o, r, v) {
      UndoneAt(m, u, b, n, o);
      UntouchedAt(before, after, b.vtx[n], b.height, o);
      MixedAt(m, after, v, o);
    }
  }

  lemma {:induction false} UndoBlock(m: Utxo, u: Utxo, v: Utxo, b: Block, n: nat)
    requires BlockFresh(u, b) && n <= |b.vtx| && SizesMatch(b, UndoOf(u, b)) && Mixed(m, After(u, b), v)
    ensures Mixed(Backward(m, b, UndoOf(u, b), n), Forward(u, b, n), v)
    decreases |b.vtx| - n
  {
    if n < |b.vtx| {
      UndoBlock(m, u, v, b, n + 1);
      UndoMixed(Backward(m, b, UndoOf(u, b), n + 1), u, v, b, n);
    }
  }

  /** Undoing a transaction gives back the coins before it exactly when it overwrote none. */
  lemma OverwritesAreLost(u: Utxo, tx: Tx, height: nat)
    requires Taken(tx) <= u.Keys
    ensures var spent := map o | o in Taken(tx) :: u[o];
            Connected(u, tx, height) - Points(tx, |tx.vout|) + spent == u <==> forall o | o in Points(tx, |tx.vout|) :: o !in u - Taken(tx)
  {
    var spent := map o | o in Taken(tx) :: u[o];
    var back := Connected(u, tx, height) - Points(tx, |tx.vout|) + spent;
    forall o ensures SameAt(o, back, u) <==> o !in Points(tx, |tx.vout|) || o !in u - Taken(tx) {
      ConnectedAt(u, tx, height, o);
    }
    if forall o | o in Points(tx, |tx.vout|) :: o !in u - Taken(tx) {
      forall o ensures SameAt(o, back, u) {}
      SameUtxo(back, u);
    }
  }

  // ---------- disconnecting undoes connecting ----------

  lemma BackwardExact(u: Utxo, b: Block, n: nat)
    requires BlockFresh(u, b) && n <= |b.vtx| && SizesMatch(b, UndoOf(u, b))
    ensures Backward(After(u, b), b, UndoOf(u, b), n) == Forward(u, b, n)
  {
    UndoBlock(After(u, b), u, Forward(u, b, n), b, n);
    SameUtxo(Backward(After(u, b), b, UndoOf(u, b), n), Forward(u, b, n));
  }

  lemma CleanAfter(u: Utxo, b: Block, n: nat)
    requires BlockFits(u, b) && n < |b.vtx|
    ensures CleanTx(Forward(u, b, n + 1), b, n)
  {
    assert TxFits(u, b, n);
    var tx, v, c := b.vtx[n], Forward(u, b, n), Forward(u, b, n + 1);
    forall i | 0 <= i < |tx.vout| && Spendable(tx, i) ensures OutputMatches(c, tx, b.height, i) {
      ConnectedAt(v, tx, b.height, OutPoint(tx.txid, i));
      assert OutPoint(tx.txid, i) in Points(tx, |tx.vout|);
    }
    if n > 0 { AbsentAfter(v, tx, b.height, 0); }
  }

  lemma {:induction false} AbsentAfter(u: Utxo, tx: Tx, height: nat, j: nat)
    requires Fits(u, tx) && !tx.IsCoinBase() && j <= |tx.vin|
    ensures InputsAbsent(Connected(u, tx, height) - Points(tx, |tx.vout|), tx, j)
    decreases |tx.vin| - j
  {
    if j < |tx.vin| {
      AbsentAfter(u, tx, height, j + 1);
      ConnectedAt(u, tx, height, tx.vin[j]);
      assert tx.vin[j] in Taken(tx);
    }
  }

  lemma {:induction false} CleanBlock(u: Utxo, b: Block, n: nat)
    requires BlockFresh(u, b) && n <= |b.vtx| && SizesMatch(b, UndoOf(u, b))
    ensures CleanFrom(After(u, b), b, UndoOf(u, b), n)
    decreases |b.vtx| - n
  {
    if n < |b.vtx| {
      CleanBlock(u, b, n + 1);
      BackwardExact(u, b, n + 1);
      CleanAfter(u, b, n);
    }
  }

  /** What AddCoin lets into a cache above height 0. */
  ghost predicate Proper(u: Utxo) {
    forall o | o in u :: GoodCoin(u[o])
  }

  lemma ProperNext(u: Utxo, tx: Tx, height: nat)
    requires Proper(u) && ValuesOk(tx) && height > 0
    ensures Proper(Connected(u, tx, height))
  {
    forall o | o in Connected(u, tx, height) ensures GoodCoin(Connected(u, tx, height)[o]) {
      ConnectedAt(u, tx, height, o);
    }
  }

  lemma {:induction false} ProperForward(u: Utxo, b: Block, n: nat)
    requires Proper(u) && BlockFits(u, b) && n <= |b.vtx|
    ensures Proper(Forward(u, b, n))
    decreases n
  {
    if n > 0 {
      ProperForward(u, b, n - 1);
      assert TxFits(u, b, n - 1);
      ProperNext(Forward(u, b, n - 1), b.vtx[n - 1], b.height);
    }
  }

  lemma UndoIsGood(u: Utxo, b: Block)
    requires Proper(u) && BlockFits(u, b)
    ensures GoodUndo(b, UndoOf(u, b)) && forall n | 0 <= n < |b.vtx| :: ValuesOk(b.vtx[n])
  {
    UndoSizes(u, b);
    forall n | 0 <= n < |b.vtx| ensures ValuesOk(b.vtx[n]) && (n > 0 ==> GoodCoins(UndoOf(u, b)[n - 1])) {
      assert TxFits(u, b, n);
      ProperForward(u, b, n);
    }
    forall n | 0 <= n < |UndoOf(u, b)| ensures GoodCoins(UndoOf(u, b)[n]) {
      assert GoodCoins(UndoOf(u, b)[n + 1 - 1]);
    }
  }

  // Connecting a block and disconnecting it with the undo data gives the coins back, and finds nothing amiss.
  method ConnectAndDisconnect(s: CoinsViewStack, b: Block) returns (res: DisconnectResult)
    requires s.Valid() && |s.caches| > 0 && Proper(TopOf(s.views)) && BlockFresh(TopOf(s.views), b)
    modifies s
    ensures s.Valid() && s.disk == old(s.disk) && s.views == old(s.views) && res == OK
  {
    ghost var u := TopOf(s.views);
    var undo := ConnectTransactions(s, b);
    UndoIsGood(u, b);
    BackwardExact(u, b, 0);
    CleanBlock(u, b, 0);
    assert forall n, j | 0 <= n < |undo| && 0 <= j < |undo[n]| :: GoodCoin(undo[n][j]);
    GoodUndoes(After(u, b), b, undo, 0);
    res := DisconnectBlock(s, b, undo);
  }

  // ---------- the states of a chain ----------

  /** The block index with the blocks and the undo data on disk. */
  datatype Store = Store(t: Chain.Tree, blocks: seq<Block>, undos: seq<BlockUndo>)

  ghost predicate StoreOk(st: Store) {
    && Chain.WellFormed(st.t) && |st.blocks| == |st.undos| == |st.t|
    && forall i | 0 <= i < |st.t| && st.t[i].pprev == Chain.NULL :: i == 0
  }

  ghost predicate InStore(st: Store, i: int) {
    StoreOk(st) && NO_BLOCK <= i < |st.t| && (i != NO_BLOCK ==> Chain.LinkOk(st.t, i))
  }

  /** The coins after block i; the outputs of the first block are not among them. */
  ghost function StateAt(st: Store, i: int): Utxo
    requires InStore(st, i)
    decreases i
  {
    if i == NO_BLOCK || st.t[i].pprev == Chain.NULL then map[]
    else
      assert Chain.LinkOk(st.t, st.t[i].pprev);
      After(StateAt(st, st.t[i].pprev), st.blocks[i])
  }

  /** Block i and all its ancestors were connected, with the undo data as written then. */
  ghost predicate WasConnected(st: Store, i: int)
    requires InStore(st, i)
    decreases i
  {
    i == NO_BLOCK || st.t[i].pprev == Chain.NULL || (
      assert Chain.LinkOk(st.t, st.t[i].pprev);
      var u := StateAt(st, st.t[i].pprev);
      && WasConnected(st, st.t[i].pprev) && st.blocks[i].height == st.t[i].nHeight
      && BlockFresh(u, st.blocks[i]) && st.undos[i] == UndoOf(u, st.blocks[i]))
  }

  lemma {:induction false} StateProper(st: Store, i: int)
    requires InStore(st, i) && WasConnected(st, i)
    ensures Proper(StateAt(st, i))
    decreases i
  {
    if i != NO_BLOCK && st.t[i].pprev != Chain.NULL {
      assert Chain.LinkOk(st.t, st.t[i].pprev);
      StateProper(st, st.t[i].pprev);
      ProperForward(StateAt(st, st.t[i].pprev), st.blocks[i], |st.blocks[i].vtx|);
    }
  }

  // one turn of the rollback loop
  method RollBack(st: Store, s: CoinsViewStack, i: nat, ghost v: Utxo) returns (res: DisconnectResult)
    requires InStore(st, i) && st.t[i].pprev != Chain.NULL && WasConnected(st, i)
    requires s.Valid() && |s.caches| > 0 && Mixed(TopOf(s.views), StateAt(st, i), v)
    modifies s
    ensures s.Valid() && s.disk == old(s.disk) && |s.caches| == |old(s.caches)| && res != FAILED
    ensures InStore(st, st.t[i].pprev) && Mixed(TopOf(s.views), StateAt(st, st.t[i].pprev), v)
  {
    assert Chain.LinkOk(st.t, st.t[i].pprev);
    ghost var u := StateAt(st, st.t[i].pprev);
    StateProper(st, st.t[i].pprev);
    UndoIsGood(u, st.blocks[i]);
    UndoBlock(TopOf(s.views), u, v, st.blocks[i], 0);
    assert forall n, j | 0 <= n < |st.undos[i]| && 0 <= j < |st.undos[i][n]| :: GoodCoin(st.undos[i][n][j]);
    GoodUndoes(TopOf(s.views), st.blocks[i], st.undos[i], 0);
    res := DisconnectBlock(s, st.blocks[i], st.undos[i]);
  }

  // one turn of the roll-forward loop
  method RollOn(st: Store, s: CoinsViewStack, i: nat, ghost v: Utxo)
    requires InStore(st, i) && st.t[i].pprev != Chain.NULL && WasConnected(st, i) && InStore(st, st.t[i].pprev)
    requires s.Valid() && |s.caches| > 0 && Mixed(TopOf(s.views), StateAt(st, st.t[i].pprev), v)
    modifies s
    ensures s.Valid() && s.disk == old(s.disk) && |s.caches| == |old(s.caches)|
    ensures Mixed(TopOf(s.views), StateAt(st, i), v)
  {
    ghost var u := StateAt(st, st.t[i].pprev);
    StateProper(st, st.t[i].pprev);
    UndoIsGood(u, st.blocks[i]);
    RedoBlock(TopOf(s.views), u, v, st.blocks[i], |st.blocks[i].vtx|);
    RollforwardBlock(s, st.blocks[i]);
  }

  lemma {:induction false} AncestorConnected(st: Store, i: nat, h: nat)
    requires InStore(st, i) && WasConnected(st, i) && h <= st.t[i].nHeight
    ensures var a := Chain.Walk(st.t, i, h); InStore(st, a) && WasConnected(st, a)
    decreases i
  {
    assert Chain.LinkOk(st.t, Chain.Walk(st.t, i, h));
    if st.t[i].nHeight != h {
      assert Chain.LinkOk(st.t, st.t[i].pprev);
      AncestorConnected(st, st.t[i].pprev, h);
    }
  }

  lemma NextUp(st: Store, i: nat, h: nat)
    requires InStore(st, i) && WasConnected(st, i) && h < st.t[i].nHeight
    ensures var a := Chain.Walk(st.t, i, h + 1);
            InStore(st, a) && WasConnected(st, a) && st.t[a].pprev == Chain.Walk(st.t, i, h) && InStore(st, st.t[a].pprev)
  {
    AncestorConnected(st, i, h);
    AncestorConnected(st, i, h + 1);
    Chain.WalkTwice(st.t, i, h + 1, h);
  }

  /** Which blocks, and the undo data of which, can be read from disk. */
  datatype Reads = Reads(block: nat -> bool, undo: nat -> bool)

  /** Every block from i down to height h, that one not included, can be undone. */
  ghost predicate BackReadable(st: Store, io: Reads, i: nat, h: nat)
    requires StoreOk(st) && i < |st.t|
  {
    forall k | h < k <= st.t[i].nHeight :: io.block(Chain.Walk(st.t, i, k)) && io.undo(Chain.Walk(st.t, i, k))
  }

  /** And every block from there up to i can be read. */
  ghost predicate FrontReadable(st: Store, io: Reads, i: nat, h: nat)
    requires StoreOk(st) && i < |st.t|
  {
    ReadTo(st, io, i, h, st.t[i].nHeight)
  }

  ghost predicate ReadTo(st: Store, io: Reads, i: nat, h: nat, top: nat)
    requires StoreOk(st) && i < |st.t| && top <= st.t[i].nHeight
  {
    forall k | h < k <= top :: io.block(Chain.Walk(st.t, i, k))
  }

  lemma ReadOn(st: Store, io: Reads, i: nat, h: nat, top: nat)
    requires StoreOk(st) && i < |st.t| && h <= top < st.t[i].nHeight
    ensures ReadTo(st, io, i, h, top + 1) <==> ReadTo(st, io, i, h, top) && io.block(Chain.Walk(st.t, i, top + 1))
    ensures FrontReadable(st, io, i, h) ==> io.block(Chain.Walk(st.t, i, top + 1))
  {
  }

  lemma ParentOf(t: Chain.Tree, i: nat, j: nat, h: nat)
    requires Chain.Linked(t) && i < |t| && h < t[i].nHeight && j == Chain.Walk(t, i, h + 1)
    ensures t[j].pprev == Chain.Walk(t, i, h)
  {
    Chain.WalkTwice(t, i, h + 1, h);
    assert Chain.LinkOk(t, j) && Chain.LinkOk(t, t[j].pprev);
  }

  // the rollback along the old branch
  method RollbackTo(st: Store, io: Reads, s: CoinsViewStack, oldTip: nat, fork: nat, ghost v: Utxo) returns (ok: bool)
    requires InStore(st, oldTip) && WasConnected(st, oldTip) && Chain.IsAncestor(st.t, fork, oldTip)
    requires s.Valid() && |s.caches| > 0 && Mixed(TopOf(s.views), StateAt(st, oldTip), v)
    modifies s
    ensures s.Valid() && s.disk == old(s.disk) && |s.caches| == |old(s.caches)|
    ensures ok <==> BackReadable(st, io, oldTip, st.t[fork].nHeight)
    ensures ok ==> InStore(st, fork) && Mixed(TopOf(s.views), StateAt(st, fork), v)
  {
    var i: int := oldTip;
    while i != fork
      invariant 0 <= i && InStore(st, i) && WasConnected(st, i) && Chain.IsAncestor(st.t, fork, i)
      invariant st.t[i].nHeight <= st.t[oldTip].nHeight && i == Chain.Walk(st.t, oldTip, st.t[i].nHeight)
      invariant s.Valid() && s.disk == old(s.disk) && |s.caches| == |old(s.caches)|
      invariant Mixed(TopOf(s.views), StateAt(st, i), v) && BackReadable(st, io, oldTip, st.t[i].nHeight)
      decreases i
    {
      ghost var h := st.t[i].nHeight;
      if h > 0 { ParentOf(st.t, oldTip, i, h - 1); }
      if st.t[i].nHeight > 0 {
        if !io.block(i) || !io.undo(i) {
          assert h > st.t[fork].nHeight;
          return false;
        }
        var res := RollBack(st, s, i, v);
        if res == FAILED {
          return false;
        }
      }
      i := st.t[i].pprev;
    }
    return true;
  }

  /** u is a mixture of the new state and the state at height h on the way to it. */
  ghost predicate Reached(st: Store, u: Utxo, newTip: nat, h: nat)
    requires InStore(st, newTip) && h <= st.t[newTip].nHeight
  {
    var a := Chain.Walk(st.t, newTip, h);
    InStore(st, a) && Mixed(u, StateAt(st, a), StateAt(st, newTip))
  }

  /** The roll forward from height h has come to height k. */
  ghost predicate RolledTo(st: Store, io: Reads, u: Utxo, newTip: nat, h: nat, k: nat)
    requires InStore(st, newTip)
  {
    h <= k <= st.t[newTip].nHeight && Reached(st, u, newTip, k) && ReadTo(st, io, newTip, h, k)
  }

  // a turn of the loop that rolls forward
  method RollUp(st: Store, io: Reads, s: CoinsViewStack, newTip: nat, ghost h: nat, k: nat) returns (ok: bool)
    requires InStore(st, newTip) && WasConnected(st, newTip) && k < st.t[newTip].nHeight
    requires s.Valid() && |s.caches| > 0 && RolledTo(st, io, TopOf(s.views), newTip, h, k)
    modifies s
    ensures s.Valid() && s.disk == old(s.disk) && |s.caches| == |old(s.caches)|
    ensures if ok then RolledTo(st, io, TopOf(s.views), newTip, h, k + 1) else !FrontReadable(st, io, newTip, h)
  {
    var i, _ := Chain.GetAncestor(st.t, newTip, k + 1);
    ReadOn(st, io, newTip, h, k);
    if !io.block(i) {
      return false;
    }
    NextUp(st, newTip, k);
    RollOn(st, s, i, StateAt(st, newTip));
    return true;
  }

  // the roll forward along the new branch, behind the block at height h
  method RollforwardFrom(st: Store, io: Reads, s: CoinsViewStack, newTip: nat, h: nat) returns (ok: bool)
    requires InStore(st, newTip) && WasConnected(st, newTip) && h <= st.t[newTip].nHeight
    requires s.Valid() && |s.caches| > 0 && Reached(st, TopOf(s.views), newTip, h)
    modifies s
    ensures s.Valid() && s.disk == old(s.disk) && |s.caches| == |old(s.caches)|
    ensures ok <==> FrontReadable(st, io, newTip, h)
    ensures ok ==> TopOf(s.views) == StateAt(st, newTip)
  {
    ok := RollLoop(st, io, s, newTip, h);
    if ok { ReachedTop(st, TopOf(s.views), newTip); }
  }

  // the loop
  method RollLoop(st: Store, io: Reads, s: CoinsViewStack, newTip: nat, h: nat) returns (ok: bool)
    requires InStore(st, newTip) && WasConnected(st, newTip) && s.Valid() && |s.caches| > 0
    requires RolledTo(st, io, TopOf(s.views), newTip, h, h)
    modifies s
    ensures s.Valid() && s.disk == old(s.disk) && |s.caches| == |old(s.caches)|
    ensures if ok then RolledTo(st, io, TopOf(s.views), newTip, h, st.t[newTip].nHeight) else !FrontReadable(st, io, newTip, h)
  {
    var k := h;
    while k < st.t[newTip].nHeight
      invariant s.Valid() && s.disk == old(s.disk) && |s.caches| == |old(s.caches)|
      invariant RolledTo(st, io, TopOf(s.views), newTip, h, k)
    {
      ok := RollUp(st, io, s, newTip, h, k);
      if !ok {
        return;
      }
      k := k + 1;
    }
    return true;
  }

  lemma ReachedTop(st: Store, u: Utxo, newTip: nat)
    requires InStore(st, newTip) && Reached(st, u, newTip, st.t[newTip].nHeight)
    ensures u == StateAt(st, newTip)
  {
    SameUtxo(u, StateAt(st, newTip));
  }

  // ---------- replaying after a crash ----------

  lemma {:induction false} RootOf(st: Store, i: nat)
    requires StoreOk(st) && i < |st.t|
    ensures Chain.Walk(st.t, i, 0) == 0 && Chain.LinkOk(st.t, 0) && st.t[0].pprev == Chain.NULL
    decreases i
  {
    assert Chain.LinkOk(st.t, i) && Chain.LinkOk(st.t, 0);
    if st.t[i].nHeight != 0 { RootOf(st, st.t[i].pprev); }
  }

  /** A database in the middle of a transition between the states of two blocks. */
  ghost predicate InTransition(st: Store, d: Disk, newTip: int, oldTip: int)
    requires InStore(st, newTip) && InStore(st, oldTip)
  {
    d.best == NO_BLOCK && d.heads == [newTip, oldTip] && Mixed(d.coins, StateAt(st, oldTip), StateAt(st, newTip))
  }

  lemma MixedUnspent(m: Utxo, u: Utxo, v: Utxo)
    requires Mixed(m, u, v) && Proper(u) && Proper(v)
    ensures AllUnspent(m)
  {
    forall o | o in m ensures !m[o].IsSpent() {
      MixedAt(m, u, v, o);
    }
  }

  /** The block at which the two branches part, unless there is no old one. */
  ghost predicate IsFork(st: Store, newTip: nat, oldTip: int, fork: int)
    requires InStore(st, newTip) && InStore(st, oldTip)
  {
    if oldTip == NO_BLOCK then fork == 0 else fork != Chain.NULL && Chain.IsLastCommon(st.t, fork, oldTip, newTip)
  }

  /** All that the replay needs can be read. */
  ghost predicate Readable(st: Store, io: Reads, newTip: nat, oldTip: int, fork: int)
    requires InStore(st, newTip) && InStore(st, oldTip) && 0 <= fork < |st.t|
  {
    && (oldTip != NO_BLOCK ==> BackReadable(st, io, oldTip, st.t[fork].nHeight))
    && FrontReadable(st, io, newTip, st.t[fork].nHeight)
  }

  // the rollback and roll-forward of ReplayBlocks
  method MoveTo(st: Store, io: Reads, s: CoinsViewStack, newTip: nat, oldTip: int) returns (ok: bool, ghost fork: int)
    requires InStore(st, newTip) && InStore(st, oldTip) && WasConnected(st, newTip) && WasConnected(st, oldTip)
    requires s.Valid() && |s.caches| > 0 && Mixed(TopOf(s.views), StateAt(st, oldTip), StateAt(st, newTip))
    modifies s
    ensures s.Valid() && s.disk == old(s.disk) && |s.caches| == |old(s.caches)|
    ensures 0 <= fork < |st.t| && IsFork(st, newTip, oldTip, fork)
    ensures ok <==> Readable(st, io, newTip, oldTip, fork)
    ensures ok ==> TopOf(s.views) == StateAt(st, newTip)
  {
    var forkHeight := 0;
    RootOf(st, newTip);
    fork := 0;
    if oldTip != NO_BLOCK {
      RootOf(st, oldTip);
      assert Chain.Common(st.t, 0, oldTip, newTip);
      var f := Chain.LastCommonAncestor(st.t, oldTip, newTip);
      fork := f;
      ok := RollbackTo(st, io, s, oldTip, f, StateAt(st, newTip));
      if !ok {
        return false, fork;
      }
      forkHeight := st.t[f].nHeight;
    }
    ok := RollforwardFrom(st, io, s, newTip, forkHeight);
  }

  // what ReplayBlocks finds in the database
  ghost predicate KnownHeads(st: Store, d: Disk) {
    |d.heads| == 2 && 0 <= d.heads[0] < |st.t| && NO_BLOCK <= d.heads[1] < |st.t|
  }

  // ReplayBlocks
  method ReplayBlocks(st: Store, io: Reads, before: Disk, full: nat -> bool)
    returns (ok: bool, disk: Disk, trail: seq<Disk>, ghost fork: int)
    requires StoreOk(st)
    requires |before.heads| == 2 && InStore(st, before.heads[0]) && InStore(st, before.heads[1]) && before.heads[0] != NO_BLOCK ==>
               && WasConnected(st, before.heads[0]) && WasConnected(st, before.heads[1])
               && InTransition(st, before, before.heads[0], before.heads[1])
    ensures KnownHeads(st, before) ==>
              && InStore(st, before.heads[0]) && InStore(st, before.heads[1]) && 0 <= fork < |st.t|
              && IsFork(st, before.heads[0], before.heads[1], fork)
    ensures ok <==>
              before.heads == [] || (KnownHeads(st, before) && Readable(st, io, before.heads[0], before.heads[1], fork))
    ensures ok && before.heads != [] ==>
              && disk == Disk(StateAt(st, before.heads[0]), before.heads[0], [])
              && IsTrail(trail, before, disk.coins, disk.best)
    ensures !ok || before.heads == [] ==> disk == before && trail == [before]
  {
    disk, trail, fork := before, [before], 0;
    if before.heads == [] {
      return true, disk, trail, fork;
    }
    if |before.heads| != 2 {
      return false, disk, trail, fork;
    }
    var newTip, oldTip := before.heads[0], before.heads[1];
    if !(0 <= newTip < |st.t|) || !(NO_BLOCK <= oldTip < |st.t|) {
      return false, disk, trail, fork;
    }
    assert Chain.LinkOk(st.t, newTip) && (oldTip != NO_BLOCK ==> Chain.LinkOk(st.t, oldTip));
    ok, disk, trail, fork := ReplayFrom(st, io, before, newTip, oldTip, full);
  }

  // ReplayBlocks once both heads are known
  method ReplayFrom(st: Store, io: Reads, before: Disk, newTip: nat, oldTip: int, full: nat -> bool)
    returns (ok: bool, disk: Disk, trail: seq<Disk>, ghost fork: int)
    requires InStore(st, newTip) && InStore(st, oldTip) && WasConnected(st, newTip) && WasConnected(st, oldTip)
    requires InTransition(st, before, newTip, oldTip)
    ensures 0 <= fork < |st.t| && IsFork(st, newTip, oldTip, fork)
    ensures ok <==> Readable(st, io, newTip, oldTip, fork)
    ensures ok ==> disk == Disk(StateAt(st, newTip), newTip, []) && IsTrail(trail, before, disk.coins, newTip)
    ensures !ok ==> disk == before && trail == [before]
  {
    StateProper(st, newTip);
    StateProper(st, oldTip);
    MixedUnspent(before.coins, StateAt(st, oldTip), StateAt(st, newTip));
    var s := new CoinsViewStack(before);
    s.Push();
    ok, fork := MoveTo(st, io, s, newTip, oldTip);
    if !ok {
      return false, before, [before], fork;
    }
    var _, tr := s.Flush(0, newTip, full);
    disk, trail := s.disk, tr;
  }

  /** What a crash behind the first batch can leave: the transition between the two states, or the new one. */
  ghost predicate Recoverable(st: Store, d: Disk, newTip: int, oldTip: int)
    requires InStore(st, newTip) && InStore(st, oldTip)
  {
    InTransition(st, d, newTip, oldTip) || d == Disk(StateAt(st, newTip), newTip, [])
  }

  /** Writing on from a mixture leaves a mixture. */
  lemma MixedTwice(m: Utxo, k: Utxo, u: Utxo, v: Utxo)
    requires Mixed(m, k, v) && Mixed(k, u, v)
    ensures Mixed(m, u, v)
  {
    forall o ensures SameAt(o, m, u) || SameAt(o, m, v) {
      MixedAt(m, k, v, o);
      MixedAt(k, u, v, o);
    }
  }

  lemma TrailRecoverable(st: Store, trail: seq<Disk>, before: Disk, newTip: int, oldTip: int, i: nat)
    requires InStore(st, newTip) && InStore(st, oldTip) && InTransition(st, before, newTip, oldTip)
    requires IsTrail(trail, before, StateAt(st, newTip), newTip) && i < |trail|
    ensures Recoverable(st, trail[i], newTip, oldTip)
  {
    if 0 < i < |trail| - 1 {
      assert Between(trail[i], before, StateAt(st, newTip), newTip);
      MixedTwice(trail[i].coins, before.coins, StateAt(st, oldTip), StateAt(st, newTip));
    }
  }

  /** A restart that fails to read what it needs, or crashes after so many batches. */
  datatype Attempt = Attempt(io: Reads, crash: nat)

  ghost predicate ReadsAll(io: Reads) {
    forall i :: io.block(i) && io.undo(i)
  }

  lemma AllReadable(st: Store, io: Reads, newTip: nat, oldTip: int, fork: int)
    requires InStore(st, newTip) && InStore(st, oldTip) && 0 <= fork < |st.t| && ReadsAll(io)
    ensures Readable(st, io, newTip, oldTip, fork)
  {
  }

  // one restart
  method Restart(st: Store, at: Attempt, before: Disk, ghost newTip: int, ghost oldTip: int, full: nat -> bool) returns (disk: Disk)
    requires InStore(st, newTip) && InStore(st, oldTip) && newTip != NO_BLOCK && WasConnected(st, newTip) && WasConnected(st, oldTip)
    requires Recoverable(st, before, newTip, oldTip)
    ensures Recoverable(st, disk, newTip, oldTip)
  {
    var ok, d, trail, _ := ReplayBlocks(st, at.io, before, full);
    disk := d;
    if at.crash < |trail| {
      disk := trail[at.crash];
      if ok && before.heads != [] { TrailRecoverable(st, trail, before, newTip, oldTip, at.crash); }
    }
  }

  // Any number of restarts that crash or cannot read, and one that goes through.
  method Restarts(st: Store, crashed: Disk, ghost newTip: int, ghost oldTip: int, attempts: seq<Attempt>, last: Reads, full: nat -> bool)
    returns (disk: Disk)
    requires InStore(st, newTip) && InStore(st, oldTip) && newTip != NO_BLOCK && WasConnected(st, newTip) && WasConnected(st, oldTip)
    requires Recoverable(st, crashed, newTip, oldTip) && ReadsAll(last)
    ensures disk == Disk(StateAt(st, newTip), newTip, [])
  {
    disk := crashed;
    for k := 0 to |attempts|
      invariant Recoverable(st, disk, newTip, oldTip)
    {
      disk := Restart(st, attempts[k], disk, newTip, oldTip, full);
    }
    ghost var before, fork := disk, 0;
    var ok, trail;
    ok, disk, trail, fork := ReplayBlocks(st, last, disk, full);
    if before.heads != [] { AllReadable(st, last, newTip, oldTip, fork); }
  }

  // A crash anywhere in the flush of the coins of a new tip, any number of restarts after it that crash or
  // cannot read, and one that goes through: the database ends up with the coins of the new tip, or was never touched.
  method FlushAndCrash(st: Store, s: CoinsViewStack, newTip: int, oldTip: int, crash: nat, attempts: seq<Attempt>, last: Reads, full: nat -> bool)
    returns (disk: Disk)
    requires InStore(st, newTip) && InStore(st, oldTip) && newTip != NO_BLOCK && WasConnected(st, newTip) && WasConnected(st, oldTip)
    requires s.Valid() && |s.caches| > 0 && s.views[1] == StateAt(st, newTip) && ReadsAll(last)
    requires s.disk == Disk(StateAt(st, oldTip), oldTip, [])
    modifies s
    ensures disk == Disk(StateAt(st, newTip), newTip, []) || (crash == 0 && disk == old(s.disk))
  {
    ghost var before := s.disk;
    var _, trail := s.Flush(0, newTip, full);
    disk := s.disk;
    if crash < |trail| {
      disk := trail[crash];
      assert crash == 0 || crash == |trail| - 1 || Between(disk, before, StateAt(st, newTip), newTip);
    }
    if crash > 0 {
      disk := Restarts(st, disk, newTip, oldTip, attempts, last, full);
    } else {
      var _, d, _, _ := ReplayBlocks(st, last, disk, full);
      disk := d;
    }
  }
}
