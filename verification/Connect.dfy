/** Connecting and disconnecting blocks on the coin caches (src/validation.cpp, src/coins.cpp). */
module Connect {
  import opened Coins

  const NULL_POINT := OutPoint(0, 0xFFFF_FFFF)
  const MAX_OUTPUTS_PER_BLOCK := 111111

  datatype Tx = Tx(txid: nat, vin: seq<OutPoint>, vout: seq<TxOut>, isHogEx: bool) {
    predicate IsCoinBase() {
      |vin| == 1 && vin[0] == NULL_POINT
    }
  }

  datatype Block = Block(height: nat, vtx: seq<Tx>)

  /** The coins a transaction spent, for every transaction but the first. */
  type BlockUndo = seq<seq<Coin>>

  // ---------- what one transaction does to the coins ----------

  function CoinOf(tx: Tx, i: nat, height: nat): Coin
    requires i < |tx.vout|
  {
    Coin(tx.vout[i], tx.IsCoinBase(), height, tx.isHogEx && i > 0)
  }

  predicate Spendable(tx: Tx, i: nat)
    requires i < |tx.vout|
  {
    !CoinOf(tx, i, 0).IsUnspendable()
  }

  ghost function Points(tx: Tx, n: nat): set<OutPoint>
    requires n <= |tx.vout|
  {
    set i | 0 <= i < n && Spendable(tx, i) :: OutPoint(tx.txid, i)
  }

  /** The coins of the first n outputs. */
  ghost function Outputs(tx: Tx, height: nat, n: nat): Utxo
    requires n <= |tx.vout|
  {
    map o | o in Points(tx, n) :: CoinOf(tx, o.n, height)
  }

  ghost function Prevouts(tx: Tx, n: nat): set<OutPoint>
    requires n <= |tx.vin|
  {
    set j | 0 <= j < n :: tx.vin[j]
  }

  ghost function Taken(tx: Tx): set<OutPoint> {
    if tx.IsCoinBase() then {} else Prevouts(tx, |tx.vin|)
  }

  ghost function Connected(u: Utxo, tx: Tx, height: nat): Utxo {
    u - Taken(tx) + Outputs(tx, height, |tx.vout|)
  }

  ghost predicate ValuesOk(tx: Tx) {
    forall i | 0 <= i < |tx.vout| :: tx.vout[i].nValue != -1
  }

  /** The transaction overwrites no unspent coin. */
  ghost predicate Fresh(u: Utxo, tx: Tx) {
    forall o | o in Points(tx, |tx.vout|) :: o !in u - Taken(tx)
  }

  /** The transaction spends coins that are there, none of them twice, and only a coinbase may overwrite any. */
  ghost predicate Fits(u: Utxo, tx: Tx) {
    && ValuesOk(tx)
    && (!tx.IsCoinBase() ==> forall j | 0 <= j < |tx.vin| :: tx.vin[j] in u)
    && (forall i, j | 0 <= i < j < |tx.vin| :: tx.vin[i] != tx.vin[j])
    && (tx.IsCoinBase() || Fresh(u, tx))
  }

  ghost function WithTop(views: seq<Utxo>, u: Utxo): seq<Utxo>
    requires views != []
  {
    views[|views| - 1 := u]
  }

  ghost function TopOf(views: seq<Utxo>): Utxo
    requires views != []
  {
    views[|views| - 1]
  }

  lemma NextOutput(tx: Tx, height: nat, i: nat, u: Utxo)
    requires i < |tx.vout|
    ensures u + Outputs(tx, height, i + 1) ==
            if Spendable(tx, i) then (u + Outputs(tx, height, i))[OutPoint(tx.txid, i) := CoinOf(tx, i, height)] else u + Outputs(tx, height, i)
    ensures OutPoint(tx.txid, i) !in Points(tx, i)
  {
    assert Points(tx, i + 1) == Points(tx, i) + (if Spendable(tx, i) then {OutPoint(tx.txid, i)} else {});
  }

  method AddOutput(s: CoinsViewStack, tx: Tx, height: nat, i: nat, checkForOverwrite: bool)
    requires s.Valid() && |s.caches| > 0 && ValuesOk(tx) && i < |tx.vout|
    requires checkForOverwrite || tx.IsCoinBase() || !Spendable(tx, i) || OutPoint(tx.txid, i) !in TopOf(s.views)
    modifies s
    ensures s.Valid() && s.disk == old(s.disk) && |s.caches| == |old(s.caches)|
    ensures s.views == if Spendable(tx, i)
              then WithTop(old(s.views), TopOf(old(s.views))[OutPoint(tx.txid, i) := CoinOf(tx, i, height)]) else old(s.views)
  {
    var o := OutPoint(tx.txid, i);
    var overwrite := tx.IsCoinBase();
    if checkForOverwrite {
      var have, _ := s.GetCoin(|s.caches| - 1, o);
      overwrite := have;
    }
    var _ := s.AddCoin(o, CoinOf(tx, i, height), overwrite);
  }

  // AddCoins
  method AddCoins(s: CoinsViewStack, tx: Tx, height: nat, checkForOverwrite: bool)
    requires s.Valid() && |s.caches| > 0 && ValuesOk(tx)
    requires checkForOverwrite || tx.IsCoinBase() || forall o | o in Points(tx, |tx.vout|) :: o !in TopOf(s.views)
    modifies s
    ensures s.Valid() && s.disk == old(s.disk) && |s.caches| == |old(s.caches)|
    ensures s.views == WithTop(old(s.views), TopOf(old(s.views)) + Outputs(tx, height, |tx.vout|))
    ensures forall i | 0 <= i < |tx.vout| :: OutputStored(TopOf(old(s.views)), TopOf(s.views), tx, height, i)
  {
    ghost var u := TopOf(s.views);
    assert u + Outputs(tx, height, 0) == u;
    assert s.views == WithTop(s.views, u);
    for i := 0 to |tx.vout|
      invariant s.Valid() && s.disk == old(s.disk) && |s.caches| == |old(s.caches)|
      invariant s.views == WithTop(old(s.views), u + Outputs(tx, height, i))
    {
      NextOutput(tx, height, i, u);
      assert Spendable(tx, i) ==> OutPoint(tx.txid, i) in Points(tx, |tx.vout|);
      AddOutput(s, tx, height, i, checkForOverwrite);
    }
    forall i | 0 <= i < |tx.vout| ensures OutputStored(u, TopOf(s.views), tx, height, i) {
      StoredByScript(u, tx, height, i);
    }
  }

  /** Output i became a coin, with the marks of its transaction, unless it starts with OP_RETURN or is
      too long to be run; in that case nothing changed in its place. */
  ghost predicate OutputStored(before: Utxo, after: Utxo, tx: Tx, height: nat, i: nat)
    requires i < |tx.vout|
  {
    var o, script := OutPoint(tx.txid, i), tx.vout[i].scriptPubKey;
    if (script != [] && script[0] == 0x6a) || |script| > 10000 then SameAt(o, after, before)
    else
      && o in after && after[o].out == tx.vout[i] && after[o].nHeight == height
      && (after[o].fCoinBase <==> |tx.vin| == 1 && tx.vin[0] == OutPoint(0, 0xFFFF_FFFF))
      && (after[o].fPegout <==> tx.isHogEx && i > 0)
  }

  lemma StoredByScript(u: Utxo, tx: Tx, height: nat, i: nat)
    requires i < |tx.vout|
    ensures OutputStored(u, u + Outputs(tx, height, |tx.vout|), tx, height, i)
  {
    var o := OutPoint(tx.txid, i);
    assert o in Points(tx, |tx.vout|) <==> Spendable(tx, i);
  }

  // the loop over the inputs in UpdateCoins and RollforwardBlock
  method SpendInputs(s: CoinsViewStack, tx: Tx) returns (spent: seq<Coin>)
    requires s.Valid() && |s.caches| > 0
    modifies s
    ensures s.Valid() && s.disk == old(s.disk) && |s.caches| == |old(s.caches)|
    ensures s.views == WithTop(old(s.views), TopOf(old(s.views)) - Prevouts(tx, |tx.vin|))
    ensures |spent| == |tx.vin|
    ensures forall j | 0 <= j < |tx.vin| && tx.vin[j] in TopOf(old(s.views)) && tx.vin[j] !in Prevouts(tx, j) ::
              spent[j] == TopOf(old(s.views))[tx.vin[j]]
  {
    ghost var u := TopOf(s.views);
    spent := [];
    assert u - Prevouts(tx, 0) == u && s.views == WithTop(s.views, u);
    for j := 0 to |tx.vin|
      invariant s.Valid() && s.disk == old(s.disk) && |s.caches| == |old(s.caches)|
      invariant s.views == WithTop(old(s.views), u - Prevouts(tx, j)) && |spent| == j
      invariant forall k | 0 <= k < j && tx.vin[k] in u && tx.vin[k] !in Prevouts(tx, k) :: spent[k] == u[tx.vin[k]]
    {
      var _, coin := s.SpendCoin(tx.vin[j]);
      assert u - Prevouts(tx, j) - {tx.vin[j]} == u - Prevouts(tx, j + 1);
      spent := spent + [coin];
    }
  }

  ghost function Undo(u: Utxo, tx: Tx): seq<Coin>
    requires Fits(u, tx)
  {
    if tx.IsCoinBase() then [] else seq(|tx.vin|, j requires 0 <= j < |tx.vin| => u[tx.vin[j]])
  }

  // UpdateCoins
  method UpdateCoins(s: CoinsViewStack, tx: Tx, height: nat) returns (undo: seq<Coin>)
    requires s.Valid() && |s.caches| > 0 && Fits(TopOf(s.views), tx)
    modifies s
    ensures s.Valid() && s.disk == old(s.disk) && |s.caches| == |old(s.caches)|
    ensures s.views == WithTop(old(s.views), Connected(TopOf(old(s.views)), tx, height))
    ensures undo == Undo(TopOf(old(s.views)), tx)
  {
    ghost var u := TopOf(s.views);
    undo := [];
    assert u - {} == u;
    if !tx.IsCoinBase() {
      undo := SpendInputs(s, tx);
    }
    AddCoins(s, tx, height, false);
  }

  // ---------- blocks forward ----------

  /** The coins after the first n transactions of a block. */
  ghost function Forward(u: Utxo, b: Block, n: nat): Utxo
    requires n <= |b.vtx|
  {
    if n == 0 then u else Connected(Forward(u, b, n - 1), b.vtx[n - 1], b.height)
  }

  ghost function After(u: Utxo, b: Block): Utxo {
    Forward(u, b, |b.vtx|)
  }

  /** The first transaction is the coinbase, and each fits what the ones before it left. */
  ghost predicate BlockFits(u: Utxo, b: Block) {
    b.height > 0 && |b.vtx| > 0 && forall n | 0 <= n < |b.vtx| :: TxFits(u, b, n)
  }

  ghost predicate TxFits(u: Utxo, b: Block, n: nat)
    requires n < |b.vtx|
  {
    Fits(Forward(u, b, n), b.vtx[n]) && (b.vtx[n].IsCoinBase() <==> n == 0)
  }

  /** And the coinbase overwrites nothing either. */
  ghost predicate BlockFresh(u: Utxo, b: Block) {
    BlockFits(u, b) && Fresh(u, b.vtx[0])
  }

  lemma FreshAt(u: Utxo, b: Block, n: nat)
    requires BlockFresh(u, b) && n < |b.vtx|
    ensures Fresh(Forward(u, b, n), b.vtx[n])
  {
    assert TxFits(u, b, n);
  }

  ghost function UndoOf(u: Utxo, b: Block): BlockUndo
    requires BlockFits(u, b)
  {
    seq(|b.vtx| - 1, i requires 0 <= i < |b.vtx| - 1 => assert TxFits(u, b, i + 1); Undo(Forward(u, b, i + 1), b.vtx[i + 1]))
  }

  // the loop of ConnectBlock that updates the coins and collects the undo data
  method ConnectTransactions(s: CoinsViewStack, b: Block) returns (undo: BlockUndo)
    requires s.Valid() && |s.caches| > 0 && BlockFits(TopOf(s.views), b)
    modifies s
    ensures s.Valid() && s.disk == old(s.disk) && |s.caches| == |old(s.caches)|
    ensures s.views == WithTop(old(s.views), After(TopOf(old(s.views)), b))
    ensures undo == UndoOf(TopOf(old(s.views)), b)
  {
    ghost var u := TopOf(s.views);
    undo := [];
    assert s.views == WithTop(s.views, u);
    for i := 0 to |b.vtx|
      invariant s.Valid() && s.disk == old(s.disk) && |s.caches| == |old(s.caches)|
      invariant s.views == WithTop(old(s.views), Forward(u, b, i))
      invariant |undo| == (if i == 0 then 0 else i - 1) && forall k | 0 <= k < |undo| :: undo[k] == UndoOf(u, b)[k]
    {
      assert TxFits(u, b, i);
      var txundo := UpdateCoins(s, b.vtx[i], b.height);
      if i > 0 {
        undo := undo + [txundo];
      }
    }
  }

  // RollforwardBlock
  method RollforwardBlock(s: CoinsViewStack, b: Block)
    requires s.Valid() && |s.caches| > 0 && forall n | 0 <= n < |b.vtx| :: ValuesOk(b.vtx[n])
    modifies s
    ensures s.Valid() && s.disk == old(s.disk) && |s.caches| == |old(s.caches)|
    ensures s.views == WithTop(old(s.views), After(TopOf(old(s.views)), b))
  {
    ghost var u := TopOf(s.views);
    assert s.views == WithTop(s.views, u);
    for i := 0 to |b.vtx|
      invariant s.Valid() && s.disk == old(s.disk) && |s.caches| == |old(s.caches)|
      invariant s.views == WithTop(old(s.views), Forward(u, b, i))
    {
      ghost var v := Forward(u, b, i);
      assert v - {} == v;
      if !b.vtx[i].IsCoinBase() {
        var _ := SpendInputs(s, b.vtx[i]);
      }
      AddCoins(s, b.vtx[i], b.height, true);
    }
  }

  // ---------- blocks backward ----------

  /** The coins that the inputs from j on restore. */
  ghost function Restored(tx: Tx, undo: seq<Coin>, j: nat): Utxo
    requires j <= |tx.vin| == |undo|
    decreases |tx.vin| - j
  {
    if j == |tx.vin| then map[] else Restored(tx, undo, j + 1)[tx.vin[j] := undo[j]]
  }

  ghost predicate GoodCoin(coin: Coin) {
    !coin.IsSpent() && Runnable(coin.out.scriptPubKey) && coin.nHeight > 0
  }

  ghost predicate GoodCoins(coins: seq<Coin>) {
    forall j | 0 <= j < |coins| :: GoodCoin(coins[j])
  }

  ghost predicate SizesMatch(b: Block, undo: BlockUndo) {
    |undo| + 1 == |b.vtx| && forall n | 0 < n < |b.vtx| :: |undo[n - 1]| == |b.vtx[n].vin|
  }

  ghost predicate GoodUndo(b: Block, undo: BlockUndo) {
    SizesMatch(b, undo) && forall n | 0 <= n < |undo| :: GoodCoins(undo[n])
  }

  /** The coins with transaction n undone. */
  ghost function Undone(m: Utxo, b: Block, undo: BlockUndo, n: nat): Utxo
    requires n < |b.vtx| && SizesMatch(b, undo)
  {
    m - Points(b.vtx[n], |b.vtx[n].vout|) + if n == 0 then map[] else Restored(b.vtx[n], undo[n - 1], 0)
  }

  /** The coins with the transactions from n on undone, the last one first. */
  ghost function Backward(m: Utxo, b: Block, undo: BlockUndo, n: nat): Utxo
    requires n <= |b.vtx| && SizesMatch(b, undo)
    decreases |b.vtx| - n
  {
    if n == |b.vtx| then m else Undone(Backward(m, b, undo, n + 1), b, undo, n)
  }

  /** The first n outputs are there as the transaction made them. */
  ghost predicate OutputsMatch(u: Utxo, tx: Tx, height: nat, n: nat)
    requires n <= |tx.vout|
  {
    forall i | 0 <= i < n && Spendable(tx, i) :: OutputMatches(u, tx, height, i)
  }

  ghost predicate OutputMatches(u: Utxo, tx: Tx, height: nat, i: nat)
    requires i < |tx.vout|
  {
    var o := OutPoint(tx.txid, i);
    o in u && u[o].out == tx.vout[i] && u[o].nHeight == height && u[o].fCoinBase == tx.IsCoinBase()
  }

  /** No coin is there that an input from j on restores. */
  ghost predicate InputsAbsent(u: Utxo, tx: Tx, j: nat)
    requires j <= |tx.vin|
    decreases |tx.vin| - j
  {
    j < |tx.vin| ==> InputsAbsent(u, tx, j + 1) && tx.vin[j] !in u && tx.vin[j] !in tx.vin[j + 1..]
  }

  ghost predicate CleanTx(m: Utxo, b: Block, n: nat)
    requires n < |b.vtx|
  {
    var tx := b.vtx[n];
    OutputsMatch(m, tx, b.height, |tx.vout|) && (n > 0 ==> InputsAbsent(m - Points(tx, |tx.vout|), tx, 0))
  }

  ghost predicate CleanFrom(m: Utxo, b: Block, undo: BlockUndo, n: nat)
    requires n <= |b.vtx| && SizesMatch(b, undo)
    decreases |b.vtx| - n
  {
    n < |b.vtx| ==> CleanFrom(m, b, undo, n + 1) && CleanTx(Backward(m, b, undo, n + 1), b, n)
  }

  datatype DisconnectResult = OK | UNCLEAN | FAILED

  // ---------- undoing in general ----------

  /** What undoing leaves: the coins, and whether they were as expected; or nothing when data is missing. */
  datatype Undoing = Failed | Done(coins: Utxo, clean: bool)

  /** The first unspent coin of a transaction from output n on, or a spent one. */
  ghost function Alternate(u: Utxo, txid: nat, n: nat): Coin
    decreases MAX_OUTPUTS_PER_BLOCK - n
  {
    if n >= MAX_OUTPUTS_PER_BLOCK then CLEARED
    else if OutPoint(txid, n) in u then u[OutPoint(txid, n)] else Alternate(u, txid, n + 1)
  }

  /** One coin put back; without a height it takes height and coinbase flag from another output. */
  ghost function RestoreOne(u: Utxo, out: OutPoint, undo: Coin): Undoing {
    var other := Alternate(u, out.hash, 0);
    if undo.nHeight == 0 && other.IsSpent() then Failed
    else
      var coin := if undo.nHeight == 0 then undo.(nHeight := other.nHeight, fCoinBase := other.fCoinBase) else undo;
      Done(if Runnable(coin.out.scriptPubKey) then u[out := coin] else u, out !in u)
  }

  ghost function Then(a: Undoing, b: Undoing): Undoing {
    if a.Done? && b.Done? then Done(b.coins, a.clean && b.clean) else Failed
  }

  /** The inputs from j on put back, the last one first. */
  ghost function RestoreFrom(u: Utxo, tx: Tx, undo: seq<Coin>, j: nat): Undoing
    requires j <= |tx.vin| == |undo|
    decreases |tx.vin| - j
  {
    if j == |tx.vin| then Done(u, true) else
      var r := RestoreFrom(u, tx, undo, j + 1);
      if r.Failed? then Failed else Then(r, RestoreOne(r.coins, tx.vin[j], undo[j]))
  }

  ghost function UndoTx(m: Utxo, b: Block, undo: BlockUndo, n: nat): Undoing
    requires n < |b.vtx| && SizesMatch(b, undo)
  {
    var tx := b.vtx[n];
    var rest := Done(m - Points(tx, |tx.vout|), OutputsMatch(m, tx, b.height, |tx.vout|));
    if n == 0 then rest else Then(rest, RestoreFrom(rest.coins, tx, undo[n - 1], 0))
  }

  /** The transactions from n on undone, the last one first. */
  ghost function UndoFrom(m: Utxo, b: Block, undo: BlockUndo, n: nat): Undoing
    requires n <= |b.vtx| && SizesMatch(b, undo)
    decreases |b.vtx| - n
  {
    if n == |b.vtx| then Done(m, true) else
      var r := UndoFrom(m, b, undo, n + 1);
      if r.Failed? then Failed else Then(r, UndoTx(r.coins, b, undo, n))
  }

  lemma {:induction false} RestoreStaysFailed(u: Utxo, tx: Tx, undo: seq<Coin>, j: nat)
    requires j <= |tx.vin| == |undo| && RestoreFrom(u, tx, undo, j).Failed?
    ensures RestoreFrom(u, tx, undo, 0).Failed?
    decreases j
  {
    if j > 0 { RestoreStaysFailed(u, tx, undo, j - 1); }
  }

  lemma {:induction false} UndoStaysFailed(m: Utxo, b: Block, undo: BlockUndo, n: nat)
    requires n <= |b.vtx| && SizesMatch(b, undo) && UndoFrom(m, b, undo, n).Failed?
    ensures UndoFrom(m, b, undo, 0).Failed?
    decreases n
  {
    if n > 0 { UndoStaysFailed(m, b, undo, n - 1); }
  }

  /** Coins with heights go back as they are. */
  lemma {:induction false} GoodRestores(u: Utxo, tx: Tx, undo: seq<Coin>, j: nat)
    requires j <= |tx.vin| == |undo| && GoodCoins(undo)
    ensures RestoreFrom(u, tx, undo, j) == Done(u + Restored(tx, undo, j), InputsAbsent(u, tx, j))
    decreases |tx.vin| - j
  {
    if j == |tx.vin| {
      assert u + map[] == u;
    } else {
      GoodRestores(u, tx, undo, j + 1);
      RestoreNext(u, tx, undo, j);
      assert GoodCoin(undo[j]);
    }
  }

  lemma {:induction false} GoodUndoes(m: Utxo, b: Block, undo: BlockUndo, n: nat)
    requires n <= |b.vtx| && GoodUndo(b, undo)
    ensures UndoFrom(m, b, undo, n) == Done(Backward(m, b, undo, n), CleanFrom(m, b, undo, n))
    decreases |b.vtx| - n
  {
    if n < |b.vtx| {
      GoodUndoes(m, b, undo, n + 1);
      GoodTx(Backward(m, b, undo, n + 1), b, undo, n);
    }
  }

  lemma GoodTx(m: Utxo, b: Block, undo: BlockUndo, n: nat)
    requires n < |b.vtx| && GoodUndo(b, undo)
    ensures UndoTx(m, b, undo, n) == Done(Undone(m, b, undo, n), CleanTx(m, b, n))
  {
    var tx := b.vtx[n];
    var rest := m - Points(tx, |tx.vout|);
    if n > 0 {
      GoodRestores(rest, tx, undo[n - 1], 0);
    } else {
      assert rest + map[] == rest;
    }
  }

  /** The result that goes with an undoing. */
  ghost predicate Answers(res: DisconnectResult, r: Undoing) {
    res == if r.Failed? then FAILED else if r.clean then OK else UNCLEAN
  }

  // AccessByTxid
  method AccessByTxid(s: CoinsViewStack, txid: nat) returns (coin: Coin)
    requires s.Valid() && |s.caches| > 0
    modifies s
    ensures s.Valid() && s.disk == old(s.disk) && s.views == old(s.views) && |s.caches| == |old(s.caches)|
    ensures coin.IsSpent() <==> forall n: nat | n < MAX_OUTPUTS_PER_BLOCK :: OutPoint(txid, n) !in TopOf(s.views)
    ensures coin == Alternate(TopOf(s.views), txid, 0)
  {
    var n: nat := 0;
    while n < MAX_OUTPUTS_PER_BLOCK
      invariant n <= MAX_OUTPUTS_PER_BLOCK
      invariant s.Valid() && s.disk == old(s.disk) && s.views == old(s.views) && |s.caches| == |old(s.caches)|
      invariant forall k: nat | k < n :: OutPoint(txid, k) !in TopOf(s.views)
      invariant Alternate(TopOf(s.views), txid, 0) == Alternate(TopOf(s.views), txid, n)
    {
      var unspent, alternate := s.GetCoin(|s.caches| - 1, OutPoint(txid, n));
      if unspent {
        return alternate;
      }
      n := n + 1;
    }
    return CLEARED;
  }

  // ApplyTxInUndo
  method ApplyTxInUndo(s: CoinsViewStack, undo: Coin, out: OutPoint) returns (res: DisconnectResult)
    requires s.Valid() && |s.caches| > 0 && !undo.IsSpent()
    modifies s
    ensures s.Valid() && s.disk == old(s.disk) && |s.caches| == |old(s.caches)|
    ensures var r := RestoreOne(TopOf(old(s.views)), out, undo);
            Answers(res, r) && s.views == WithTop(old(s.views), if r.Done? then r.coins else TopOf(old(s.views)))
  {
    var have, _ := s.GetCoin(|s.caches| - 1, out);
    var coin := undo;
    if undo.nHeight == 0 {
      var alternate := AccessByTxid(s, out.hash);
      if alternate.IsSpent() {
        return FAILED;
      }
      coin := undo.(nHeight := alternate.nHeight, fCoinBase := alternate.fCoinBase);
    }
    var _ := s.AddCoin(out, coin, have);
    return if have then UNCLEAN else OK;
  }

  lemma NextPoint(u: Utxo, tx: Tx, i: nat)
    requires i < |tx.vout|
    ensures u - Points(tx, i + 1) == if Spendable(tx, i) then u - Points(tx, i) - {OutPoint(tx.txid, i)} else u - Points(tx, i)
    ensures OutPoint(tx.txid, i) !in Points(tx, i)
  {
    assert Points(tx, i + 1) == Points(tx, i) + (if Spendable(tx, i) then {OutPoint(tx.txid, i)} else {});
  }

  // the loop of DisconnectBlock over the outputs
  method RemoveOutputs(s: CoinsViewStack, tx: Tx, height: nat) returns (clean: bool)
    requires s.Valid() && |s.caches| > 0 && ValuesOk(tx)
    modifies s
    ensures s.Valid() && s.disk == old(s.disk) && |s.caches| == |old(s.caches)|
    ensures s.views == WithTop(old(s.views), TopOf(old(s.views)) - Points(tx, |tx.vout|))
    ensures clean <==> OutputsMatch(TopOf(old(s.views)), tx, height, |tx.vout|)
  {
    ghost var u := TopOf(s.views);
    clean := true;
    assert u - Points(tx, 0) == u && s.views == WithTop(s.views, u);
    for i := 0 to |tx.vout|
      invariant s.Valid() && s.disk == old(s.disk) && |s.caches| == |old(s.caches)|
      invariant s.views == WithTop(old(s.views), u - Points(tx, i))
      invariant clean <==> OutputsMatch(u, tx, height, i)
    {
      NextPoint(u, tx, i);
      if Spendable(tx, i) {
        var isSpent, coin := s.SpendCoin(OutPoint(tx.txid, i));
        if !isSpent || tx.vout[i] != coin.out || height != coin.nHeight || tx.IsCoinBase() != coin.fCoinBase {
          clean := false;
        }
      }
    }
  }

  lemma RestoreNext(u: Utxo, tx: Tx, undo: seq<Coin>, j: nat)
    requires j < |tx.vin| == |undo|
    ensures (u + Restored(tx, undo, j + 1))[tx.vin[j] := undo[j]] == u + Restored(tx, undo, j)
    ensures InputsAbsent(u, tx, j) <==> InputsAbsent(u, tx, j + 1) && tx.vin[j] !in u + Restored(tx, undo, j + 1)
  {
    RestoredKeys(tx, undo, j + 1);
  }

  // the loop of DisconnectBlock over the inputs
  method RestoreInputs(s: CoinsViewStack, tx: Tx, undo: seq<Coin>) returns (res: DisconnectResult)
    requires s.Valid() && |s.caches| > 0 && |undo| == |tx.vin|
    requires forall j | 0 <= j < |undo| :: !undo[j].IsSpent()
    modifies s
    ensures s.Valid() && s.disk == old(s.disk) && |s.caches| == |old(s.caches)|
    ensures var r := RestoreFrom(TopOf(old(s.views)), tx, undo, 0);
            Answers(res, r) && (r.Done? ==> s.views == WithTop(old(s.views), r.coins))
  {
    ghost var u := TopOf(s.views);
    var j, clean := |tx.vin|, true;
    assert s.views == WithTop(s.views, u);
    while j > 0
      invariant 0 <= j <= |tx.vin|
      invariant s.Valid() && s.disk == old(s.disk) && |s.caches| == |old(s.caches)|
      invariant RestoreFrom(u, tx, undo, j) == Done(TopOf(s.views), clean) && s.views == WithTop(old(s.views), TopOf(s.views))
    {
      j := j - 1;
      var r := ApplyTxInUndo(s, undo[j], tx.vin[j]);
      if r == FAILED {
        RestoreStaysFailed(u, tx, undo, j);
        return FAILED;
      }
      clean := clean && r != UNCLEAN;
    }
    return if clean then OK else UNCLEAN;
  }

  lemma {:induction false} RestoredKeys(tx: Tx, undo: seq<Coin>, j: nat)
    requires j <= |tx.vin| == |undo|
    ensures forall o :: o in Restored(tx, undo, j) <==> o in tx.vin[j..]
    decreases |tx.vin| - j
  {
    if j < |tx.vin| {
      RestoredKeys(tx, undo, j + 1);
      assert tx.vin[j..] == [tx.vin[j]] + tx.vin[j + 1..];
    }
  }

  // the body of the loop of DisconnectBlock
  method DisconnectTx(s: CoinsViewStack, b: Block, undo: BlockUndo, i: nat) returns (res: DisconnectResult)
    requires s.Valid() && |s.caches| > 0 && i < |b.vtx| && |undo| + 1 == |b.vtx| && ValuesOk(b.vtx[i])
    requires forall n, j | 0 <= n < |undo| && 0 <= j < |undo[n]| :: !undo[n][j].IsSpent()
    modifies s
    ensures s.Valid() && s.disk == old(s.disk) && |s.caches| == |old(s.caches)|
    ensures i > 0 && |undo[i - 1]| != |b.vtx[i].vin| ==> res == FAILED
    ensures SizesMatch(b, undo) ==>
              var r := UndoTx(TopOf(old(s.views)), b, undo, i); Answers(res, r) && (r.Done? ==> s.views == WithTop(old(s.views), r.coins))
  {
    ghost var m := TopOf(s.views);
    var clean := RemoveOutputs(s, b.vtx[i], b.height);
    var r := OK;
    if i > 0 {
      if |undo[i - 1]| != |b.vtx[i].vin| {
        return FAILED;
      }
      r := RestoreInputs(s, b.vtx[i], undo[i - 1]);
    }
    return if r == FAILED then FAILED else if clean && r == OK then OK else UNCLEAN;
  }

  // DisconnectBlock
  method DisconnectBlock(s: CoinsViewStack, b: Block, undo: BlockUndo) returns (res: DisconnectResult)
    requires s.Valid() && |s.caches| > 0 && forall n | 0 <= n < |b.vtx| :: ValuesOk(b.vtx[n])
    requires forall n, j | 0 <= n < |undo| && 0 <= j < |undo[n]| :: !undo[n][j].IsSpent()
    modifies s
    ensures s.Valid() && s.disk == old(s.disk) && |s.caches| == |old(s.caches)|
    ensures !SizesMatch(b, undo) ==> res == FAILED
    ensures SizesMatch(b, undo) ==>
              var r := UndoFrom(TopOf(old(s.views)), b, undo, 0); Answers(res, r) && (r.Done? ==> s.views == WithTop(old(s.views), r.coins))
  {
    if |undo| + 1 != |b.vtx| {
      return FAILED;
    }
    ghost var m := TopOf(s.views);
    var i, clean := |b.vtx|, true;
    assert s.views == WithTop(s.views, m);
    while i > 0
      invariant 0 <= i <= |b.vtx|
      invariant s.Valid() && s.disk == old(s.disk) && |s.caches| == |old(s.caches)|
      invariant forall n | i <= n < |b.vtx| && n > 0 :: |undo[n - 1]| == |b.vtx[n].vin|
      invariant SizesMatch(b, undo) ==>
                  UndoFrom(m, b, undo, i) == Done(TopOf(s.views), clean) && s.views == WithTop(old(s.views), TopOf(s.views))
    {
      i := i - 1;
      var r := DisconnectTx(s, b, undo, i);
      if r == FAILED {
        if SizesMatch(b, undo) { UndoStaysFailed(m, b, undo, i); }
        return FAILED;
      }
      clean := clean && r != UNCLEAN;
    }
    return if clean then OK else UNCLEAN;
  }
}
