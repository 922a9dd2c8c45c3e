/** What a clean disconnect means, and what undo data without heights gives back (src/validation.cpp,
    DisconnectBlock and ApplyTxInUndo). */
module Reconnect {
  import opened Coins
  import opened Connect

  /** The same coins, apart from the pegout mark, which is not compared. */
  ghost predicate SameButPegout(u: Utxo, v: Utxo) {
    forall o :: SameButPegoutAt(u, v, o)
  }

  ghost predicate SameButPegoutAt(u: Utxo, v: Utxo, o: OutPoint) {
    (o in u <==> o in v) && (o in u && o in v ==> u[o] == v[o].(fPegout := u[o].fPegout))
  }

  ghost predicate InputsOnce(tx: Tx) {
    forall i, j | 0 <= i < j < |tx.vin| :: tx.vin[i] != tx.vin[j]
  }

  lemma {:induction false} AbsentIff(u: Utxo, tx: Tx, j: nat)
    requires InputsOnce(tx) && j <= |tx.vin|
    ensures InputsAbsent(u, tx, j) <==> forall k | j <= k < |tx.vin| :: tx.vin[k] !in u
    decreases |tx.vin| - j
  {
    if j < |tx.vin| { AbsentIff(u, tx, j + 1); }
  }

  lemma {:induction false} RestoredKeys(tx: Tx, undo: seq<Coin>, j: nat, o: OutPoint)
    requires j <= |tx.vin| == |undo|
    ensures o in Restored(tx, undo, j) <==> exists k :: j <= k < |tx.vin| && tx.vin[k] == o
    decreases |tx.vin| - j
  {
    if j < |tx.vin| { RestoredKeys(tx, undo, j + 1, o); }
  }

  lemma PointsAt(tx: Tx, i: nat)
    requires i < |tx.vout|
    ensures OutPoint(tx.txid, i) in Points(tx, |tx.vout|) <==> Spendable(tx, i)
  {
  }

  /** Disconnecting and connecting again, coin by coin. */
  lemma AgainAt(m: Utxo, b: Block, undo: BlockUndo, n: nat, o: OutPoint)
    requires n < |b.vtx| && SizesMatch(b, undo) && (b.vtx[n].IsCoinBase() <==> n == 0)
    ensures var tx := b.vtx[n];
            var again := Connected(Undone(m, b, undo, n), tx, b.height);
            && (o in Points(tx, |tx.vout|) ==> o in again && again[o] == CoinOf(tx, o.n, b.height))
            && (o !in Points(tx, |tx.vout|) && n > 0 && o in Prevouts(tx, |tx.vin|) ==> o !in again)
            && (o !in Points(tx, |tx.vout|) && (n == 0 || o !in Prevouts(tx, |tx.vin|)) ==> SameAt(o, again, m))
  {
    var tx := b.vtx[n];
    if n > 0 { RestoredKeys(tx, undo[n - 1], 0, o); }
  }

  lemma CleanReconnects(m: Utxo, b: Block, undo: BlockUndo, n: nat)
    requires n < |b.vtx| && SizesMatch(b, undo) && (b.vtx[n].IsCoinBase() <==> n == 0) && InputsOnce(b.vtx[n]) && CleanTx(m, b, n)
    ensures SameButPegout(Connected(Undone(m, b, undo, n), b.vtx[n], b.height), m)
  {
    var tx := b.vtx[n];
    var again := Connected(Undone(m, b, undo, n), tx, b.height);
    AbsentIff(m - Points(tx, |tx.vout|), tx, 0);
    forall o ensures SameButPegoutAt(again, m, o) {
      AgainAt(m, b, undo, n, o);
      if o in Points(tx, |tx.vout|) {
        assert OutputMatches(m, tx, b.height, o.n);
      }
    }
  }

  lemma ReconnectsClean(m: Utxo, b: Block, undo: BlockUndo, n: nat)
    requires n < |b.vtx| && SizesMatch(b, undo) && (b.vtx[n].IsCoinBase() <==> n == 0) && InputsOnce(b.vtx[n])
    requires SameButPegout(Connected(Undone(m, b, undo, n), b.vtx[n], b.height), m)
    ensures CleanTx(m, b, n)
  {
    var tx := b.vtx[n];
    var again := Connected(Undone(m, b, undo, n), tx, b.height);
    forall i | 0 <= i < |tx.vout| && Spendable(tx, i) ensures OutputMatches(m, tx, b.height, i) {
      var o := OutPoint(tx.txid, i);
      PointsAt(tx, i);
      AgainAt(m, b, undo, n, o);
      assert SameButPegoutAt(again, m, o);
    }
    if n > 0 {
      forall k | 0 <= k < |tx.vin| ensures tx.vin[k] !in m - Points(tx, |tx.vout|) {
        AgainAt(m, b, undo, n, tx.vin[k]);
        assert SameButPegoutAt(again, m, tx.vin[k]);
      }
      AbsentIff(m - Points(tx, |tx.vout|), tx, 0);
    }
  }

  /** Undoing a transaction finds nothing amiss if and only if doing it again gives the same coins. */
  lemma CleanIff(m: Utxo, b: Block, undo: BlockUndo, n: nat)
    requires n < |b.vtx| && GoodUndo(b, undo) && (b.vtx[n].IsCoinBase() <==> n == 0) && InputsOnce(b.vtx[n])
    ensures var r := UndoTx(m, b, undo, n);
            r.Done? && (r.clean <==> SameButPegout(Connected(r.coins, b.vtx[n], b.height), m))
  {
    GoodTx(m, b, undo, n);
    if CleanTx(m, b, n) { CleanReconnects(m, b, undo, n); }
    if SameButPegout(Connected(Undone(m, b, undo, n), b.vtx[n], b.height), m) { ReconnectsClean(m, b, undo, n); }
  }

  // ---------- undo data without heights ----------

  /** All coins of a transaction that are left tell its height and whether it is a coinbase. */
  ghost predicate TellsOf(u: Utxo, txid: nat, nHeight: nat, fCoinBase: bool) {
    forall n: nat | OutPoint(txid, n) in u :: u[OutPoint(txid, n)].nHeight == nHeight && u[OutPoint(txid, n)].fCoinBase == fCoinBase
  }

  lemma {:induction false} AlternateTells(u: Utxo, txid: nat, n: nat)
    requires AllUnspent(u)
    ensures var c := Alternate(u, txid, n);
            if exists k: nat :: n <= k < MAX_OUTPUTS_PER_BLOCK && OutPoint(txid, k) in u
            then !c.IsSpent() && exists k: nat :: OutPoint(txid, k) in u && u[OutPoint(txid, k)] == c
            else c.IsSpent()
    decreases MAX_OUTPUTS_PER_BLOCK - n
  {
    if n < MAX_OUTPUTS_PER_BLOCK && OutPoint(txid, n) !in u {
      AlternateTells(u, txid, n + 1);
    }
  }

  /** Of a coin written without height and coinbase mark everything comes back, if and only if another output of its
      transaction is unspent; otherwise undoing fails. */
  lemma OldUndoRestores(u: Utxo, out: OutPoint, coin: Coin, undo: Coin)
    requires AllUnspent(u) && GoodCoin(coin) && undo.nHeight == 0 && undo == coin.(nHeight := 0, fCoinBase := undo.fCoinBase)
    requires TellsOf(u, out.hash, coin.nHeight, coin.fCoinBase)
    ensures RestoreOne(u, out, undo) ==
            if exists k: nat :: k < MAX_OUTPUTS_PER_BLOCK && OutPoint(out.hash, k) in u then Done(u[out := coin], out !in u) else Failed
  {
    AlternateTells(u, out.hash, 0);
    var c := Alternate(u, out.hash, 0);
    if exists k: nat :: k < MAX_OUTPUTS_PER_BLOCK && OutPoint(out.hash, k) in u {
      var k: nat :| k < MAX_OUTPUTS_PER_BLOCK && OutPoint(out.hash, k) in u;
      assert 0 <= k < MAX_OUTPUTS_PER_BLOCK && OutPoint(out.hash, k) in u;
      var n: nat :| OutPoint(out.hash, n) in u && u[OutPoint(out.hash, n)] == c;
      assert c.nHeight == coin.nHeight && c.fCoinBase == coin.fCoinBase;
      assert undo.(nHeight := c.nHeight, fCoinBase := c.fCoinBase) == coin;
    }
  }
}
