/** Transactions and blocks acting on the coin database: the effect of connecting a
    block, the effect of disconnecting it with the stored undo data, and the proof that
    the second takes back the first.
    (src/main.cpp, UpdateCoins / HaveInputs / DisconnectBlock and the loop of ConnectBlock) */
module Blocks {
  import opened Basics
  import opened Coins

  datatype TxIn = TxIn(prevout: OutPoint, scriptSig: Script)

  /** txid, serialized size and legacy signature-operation count are carried as data. */
  datatype Tx = Tx(txid: Hash, version: int, vin: seq<TxIn>, vout: seq<TxOut>, size: nat, sigOps: nat) {
    predicate IsCoinBase() {
      |vin| == 1 && vin[0].prevout.IsNull()
    }
  }

  datatype Block = Block(hash: Hash, time: int, bits: nat, vtx: seq<Tx>)

  /** The coin database as a map; it may also hold fully spent (pruned) records. */
  type CoinMap = map<Hash, CoinRecord>

  predicate Live(u: CoinMap, t: Hash) {
    t in u && !u[t].IsPruned()
  }

  /** Equal up to pruned records, which no consensus rule can see. */
  ghost predicate Same(u: CoinMap, v: CoinMap) {
    forall t :: Live(u, t) == Live(v, t) && (Live(u, t) ==> u[t] == v[t])
  }

  /** v shows what u holds, up to pruned records and to negative versions lost in storage. */
  ghost predicate Faded(u: CoinMap, v: CoinMap) {
    forall t :: Live(u, t) == Live(v, t) && (Live(u, t) ==> FadedRecord(u[t], v[t]))
  }

  lemma FadedAt(u: CoinMap, v: CoinMap, t: Hash)
    requires Faded(u, v)
    ensures Live(u, t) == Live(v, t) && (Live(u, t) ==> FadedRecord(u[t], v[t]))
  {
  }

  /** Fading twice is fading: a version is cut only once. */
  lemma FadedTransitive(u: CoinMap, v: CoinMap, w: CoinMap)
    requires Faded(u, v) && Faded(v, w)
    ensures Faded(u, w)
  {
    forall t ensures Live(u, t) == Live(w, t) && (Live(u, t) ==> FadedRecord(u[t], w[t])) {
      assert Live(u, t) == Live(v, t) && Live(v, t) == Live(w, t);
    }
  }

  /** Equal up to pruned records and to negative versions that one of the two has lost. */
  ghost predicate SameButVersions(u: CoinMap, v: CoinMap) {
    forall t :: Live(u, t) == Live(v, t) &&
                (Live(u, t) ==> && StoredRecord(u[t]) == StoredRecord(v[t])
                                && (u[t] == v[t] || u[t].version < 0 || v[t].version < 0))
  }

  lemma FadedFromOne(u: CoinMap, v: CoinMap, w: CoinMap)
    requires Faded(u, v) && Faded(u, w)
    ensures SameButVersions(v, w)
  {
    hide Live;
    forall t ensures Live(v, t) == Live(w, t)
    {
      FadedAt(u, v, t);
      FadedAt(u, w, t);
    }
  }

  lemma FadedUpdate(u: CoinMap, v: CoinMap, h: Hash, r: CoinRecord, s: CoinRecord)
    requires forall t :: t != h ==> Live(u, t) == Live(v, t) && (Live(u, t) ==> FadedRecord(u[t], v[t]))
    requires FadedRecord(r, s)
    ensures Faded(u[h := r], v[h := s])
  {
    var u', v' := u[h := r], v[h := s];
    forall t ensures Live(u', t) == Live(v', t) && (Live(u', t) ==> FadedRecord(u'[t], v'[t])) {
      assert t != h ==> Live(u', t) == Live(u, t) && Live(v', t) == Live(v, t);
    }
  }

  /** What holds of every database reached from the empty one by connecting blocks of
      height 1 and more. */
  predicate Tidy(u: CoinMap) {
    forall t :: t in u ==> u[t].IsTidy() && (u[t].IsPruned() || u[t].height >= 1)
  }

  // ---------- spending the inputs of one transaction ----------

  predicate CanSpend(u: CoinMap, o: OutPoint) {
    o.hash in u && u[o.hash].IsAvailable(o.n)
  }

  function SpendOne(u: CoinMap, o: OutPoint): CoinMap {
    if CanSpend(u, o) then u[o.hash := SpendRecord(u[o.hash], o.n)] else u
  }

  function UndoOne(u: CoinMap, o: OutPoint): TxInUndo {
    if CanSpend(u, o) then SpendUndo(u[o.hash], o.n) else TxInUndo(NULL_OUT, false, 0, 0)
  }

  /** The database after the first k inputs are spent, in order. */
  function SpendFirst(u: CoinMap, vin: seq<TxIn>, k: nat): CoinMap
    requires k <= |vin|
  {
    if k == 0 then u else SpendOne(SpendFirst(u, vin, k - 1), vin[k - 1].prevout)
  }

  function UndoFirst(u: CoinMap, vin: seq<TxIn>, k: nat): (r: seq<TxInUndo>)
    requires k <= |vin|
    ensures |r| == k
  {
    if k == 0 then [] else UndoFirst(u, vin, k - 1) + [UndoOne(SpendFirst(u, vin, k - 1), vin[k - 1].prevout)]
  }

  lemma {:induction false} UndoFirstAt(u: CoinMap, vin: seq<TxIn>, k: nat, j: nat)
    requires j < k <= |vin|
    ensures UndoFirst(u, vin, k)[j] == UndoOne(SpendFirst(u, vin, j), vin[j].prevout)
  {
    if j < k - 1 {
      UndoFirstAt(u, vin, k - 1, j);
    }
  }

  /** CheckTransaction's duplicate-input rule. */
  predicate DistinctInputs(vin: seq<TxIn>) {
    forall i, j :: 0 <= i < j < |vin| ==> vin[i].prevout != vin[j].prevout
  }

  predicate HaveInputs(u: CoinMap, vin: seq<TxIn>) {
    forall i :: 0 <= i < |vin| ==> CanSpend(u, vin[i].prevout)
  }

  lemma SpendOneFacts(u: CoinMap, o: OutPoint, p: OutPoint)
    requires Tidy(u) && CanSpend(u, o)
    ensures Tidy(SpendOne(u, o))
    ensures CanSpend(SpendOne(u, o), p) <==> p != o && CanSpend(u, p)
    ensures CanSpend(SpendOne(u, o), p) ==> SpendOne(u, o)[p.hash].vout[p.n] == u[p.hash].vout[p.n]
  {
    SpendRemovesOne(u[o.hash], o.n, p.n);
    SpendRemovesOne(u[o.hash], o.n, o.n);
    if !SpendRecord(u[o.hash], o.n).IsPruned() {
      assert u[o.hash].IsAvailable(o.n);
    }
  }

  predicate NotAmong(vin: seq<TxIn>, k: nat, p: OutPoint)
    requires k <= |vin|
  {
    forall i :: 0 <= i < k ==> vin[i].prevout != p
  }

  /** HaveInputs tests every input against the database before any is spent. Spending
      other outputs first does not matter: an output is left alone, with its value, as
      long as it is not itself among those spent. */
  lemma {:induction false} OthersStaySpendable(u: CoinMap, vin: seq<TxIn>, k: nat, p: OutPoint)
    requires Tidy(u) && DistinctInputs(vin) && HaveInputs(u, vin) && k <= |vin|
    ensures Tidy(SpendFirst(u, vin, k))
    ensures CanSpend(SpendFirst(u, vin, k), p) == (CanSpend(u, p) && NotAmong(vin, k, p))
    ensures CanSpend(SpendFirst(u, vin, k), p) ==> SpendFirst(u, vin, k)[p.hash].vout[p.n] == u[p.hash].vout[p.n]
    decreases k, 0
  {
    hide Tidy, CanSpend, SpendOne, DistinctInputs, HaveInputs;
    if k > 0 {
      OthersStaySpendable(u, vin, k - 1, p);
      InputInTurn(u, vin, k - 1);
      SpendOneFacts(SpendFirst(u, vin, k - 1), vin[k - 1].prevout, p);
    }
  }

  /** Since no outpoint occurs twice, each input is still unspent, with the same value,
      when its turn comes: the assertion on Spend in UpdateCoins cannot fire. */
  lemma {:induction false} InputInTurn(u: CoinMap, vin: seq<TxIn>, k: nat)
    requires Tidy(u) && DistinctInputs(vin) && HaveInputs(u, vin) && k < |vin|
    ensures Tidy(SpendFirst(u, vin, k))
    ensures CanSpend(SpendFirst(u, vin, k), vin[k].prevout)
    ensures var p := vin[k].prevout; SpendFirst(u, vin, k)[p.hash].vout[p.n] == u[p.hash].vout[p.n]
    decreases k, 1
  {
    assert NotAmong(vin, k, vin[k].prevout);
    assert CanSpend(u, vin[k].prevout);
    OthersStaySpendable(u, vin, k, vin[k].prevout);
  }

  // ---------- connecting ----------

  function NewRecord(tx: Tx, height: int): CoinRecord {
    CoinRecord(tx.IsCoinBase(), tx.vout, height, tx.version)
  }

  /** The database when the outputs of a transaction are added: its inputs are spent. */
  function Spent(u: CoinMap, tx: Tx): CoinMap {
    if tx.IsCoinBase() then u else SpendFirst(u, tx.vin, |tx.vin|)
  }

  function AfterTx(u: CoinMap, tx: Tx, height: int): CoinMap {
    Spent(u, tx)[tx.txid := NewRecord(tx, height)]
  }

  function TxUndo(u: CoinMap, tx: Tx): seq<TxInUndo> {
    if tx.IsCoinBase() then [] else UndoFirst(u, tx.vin, |tx.vin|)
  }

  /** The database after the first k transactions of a block. */
  function CoinsAfter(u: CoinMap, vtx: seq<Tx>, height: int, k: nat): CoinMap
    requires k <= |vtx|
  {
    if k == 0 then u else AfterTx(CoinsAfter(u, vtx, height, k - 1), vtx[k - 1], height)
  }

  /** Undo data of the transactions 1 .. k-1: the coinbase has none. */
  function BlockUndo(u: CoinMap, vtx: seq<Tx>, height: int, k: nat): (r: seq<seq<TxInUndo>>)
    requires 1 <= k <= |vtx|
    ensures |r| == k - 1
  {
    if k == 1 then [] else
      BlockUndo(u, vtx, height, k - 1) + [TxUndo(CoinsAfter(u, vtx, height, k - 1), vtx[k - 1])]
  }

  lemma {:induction false} BlockUndoAt(u: CoinMap, vtx: seq<Tx>, height: int, k: nat, j: nat)
    requires 1 <= j < k <= |vtx|
    ensures BlockUndo(u, vtx, height, k)[j - 1] == TxUndo(CoinsAfter(u, vtx, height, j), vtx[j])
  {
    if j < k - 1 {
      BlockUndoAt(u, vtx, height, k - 1, j);
    }
  }

  // ---------- the undo file ----------

  function StoredTxUndo(undo: seq<TxInUndo>): (r: seq<TxInUndo>)
    ensures |r| == |undo|
  {
    seq(|undo|, i requires 0 <= i < |undo| => StoredUndo(undo[i]))
  }

  /** What reading a block's undo data gives after it was written. */
  function StoredBlockUndo(undo: seq<seq<TxInUndo>>): (r: seq<seq<TxInUndo>>)
    ensures |r| == |undo|
  {
    seq(|undo|, i requires 0 <= i < |undo| => StoredTxUndo(undo[i]))
  }

  lemma StoredAppend(undo: seq<TxInUndo>, one: TxInUndo)
    ensures StoredTxUndo(undo + [one]) == StoredTxUndo(undo) + [StoredUndo(one)]
  {
  }

  lemma StoredBlockAppend(undo: seq<seq<TxInUndo>>, one: seq<TxInUndo>)
    ensures StoredBlockUndo(undo + [one]) == StoredBlockUndo(undo) + [StoredTxUndo(one)]
  {
  }

  // ---------- disconnecting ----------

  function Found(v: CoinMap, t: Hash): CoinRecord {
    if t in v then v[t] else EMPTY_RECORD
  }

  /** The database after inputs k-1, ..., 0 are restored, in that order. */
  function RestoreFirst(v: CoinMap, vin: seq<TxIn>, undo: seq<TxInUndo>, k: nat): CoinMap
    requires k <= |vin| == |undo|
    decreases k
  {
    if k == 0 then v else
      var o := vin[k - 1].prevout;
      RestoreFirst(v[o.hash := RestoreRecord(Found(v, o.hash), o.n, undo[k - 1])], vin, undo, k - 1)
  }

  predicate RestoreFirstClean(v: CoinMap, vin: seq<TxIn>, undo: seq<TxInUndo>, k: nat)
    requires k <= |vin| == |undo|
    decreases k
  {
    k == 0 ||
    var o := vin[k - 1].prevout;
    && RestoreClean(Found(v, o.hash), o.n, undo[k - 1])
    && RestoreFirstClean(v[o.hash := RestoreRecord(Found(v, o.hash), o.n, undo[k - 1])], vin, undo, k - 1)
  }

  /** The outputs found are exactly those the transaction created; a negative version is
      not stored faithfully and is forgiven. */
  predicate OutputsClean(v: CoinMap, tx: Tx, height: int) {
    && tx.txid in v
    && (if tx.version < 0 then v[tx.txid].(version := tx.version) else v[tx.txid]) == NewRecord(tx, height)
  }

  datatype Disconnected = Inconsistent | Disconnected(coins: CoinMap, clean: bool)

  /** Undo transactions k-1, ..., 0 of a block. */
  function DisconnectFirst(v: CoinMap, vtx: seq<Tx>, undo: seq<seq<TxInUndo>>, height: int, k: nat): Disconnected
    requires k <= |vtx| == |undo| + 1
    decreases k
  {
    if k == 0 then Disconnected(v, true) else
      var tx := vtx[k - 1];
      var ok := OutputsClean(v, tx, height);
      var gone := v[tx.txid := EMPTY_RECORD];
      if k == 1 then Disconnected(gone, ok)
      else if |undo[k - 2]| != |tx.vin| then Inconsistent
      else
        var rest := DisconnectFirst(RestoreFirst(gone, tx.vin, undo[k - 2], |tx.vin|), vtx, undo, height, k - 1);
        if rest.Inconsistent? then rest
        else rest.(clean := ok && RestoreFirstClean(gone, tx.vin, undo[k - 2], |tx.vin|) && rest.clean)
  }

  function DisconnectBlock(v: CoinMap, vtx: seq<Tx>, undo: seq<seq<TxInUndo>>, height: int): Disconnected {
    if |undo| + 1 != |vtx| then Inconsistent else DisconnectFirst(v, vtx, undo, height, |vtx|)
  }

  // ---------- disconnecting takes back connecting ----------

  lemma {:induction false} RestoreUndoesSpends(u: CoinMap, vin: seq<TxIn>, undo: seq<TxInUndo>, k: nat, v: CoinMap)
    requires Tidy(u) && DistinctInputs(vin) && HaveInputs(u, vin)
    requires k <= |vin| && undo == StoredTxUndo(UndoFirst(u, vin, |vin|))
    requires Tidy(v) && Faded(SpendFirst(u, vin, k), v)
    ensures Faded(u, RestoreFirst(v, vin, undo, k)) && Tidy(RestoreFirst(v, vin, undo, k))
    ensures RestoreFirstClean(v, vin, undo, k)
  {
    hide Faded, StoredUndo, Tidy, Live, CanSpend, SpendOne, UndoOne, RestoreRecord, RestoreClean, Found, DistinctInputs, HaveInputs;
    if k > 0 {
      var o := vin[k - 1].prevout;
      InputInTurn(u, vin, k - 1);
      UndoFirstAt(u, vin, |vin|, k - 1);
      RestoreUndoesOne(SpendFirst(u, vin, k - 1), o, v);
      RestoreUndoesSpends(u, vin, undo, k - 1, v[o.hash := RestoreRecord(Found(v, o.hash), o.n, undo[k - 1])]);
    }
  }

  lemma RestoreUndoesOne(before: CoinMap, o: OutPoint, v: CoinMap)
    requires Tidy(before) && CanSpend(before, o)
    requires Tidy(v) && Faded(SpendOne(before, o), v)
    ensures var undo := StoredUndo(UndoOne(before, o));
            var v' := v[o.hash := RestoreRecord(Found(v, o.hash), o.n, undo)];
            RestoreClean(Found(v, o.hash), o.n, undo) && Faded(before, v') && Tidy(v')
  {
    hide SpendRecord, SpendUndo, StoredUndo, StoredRecord, RestoreRecord, RestoreClean, CoinRecord.IsPruned, CoinRecord.IsTidy,
         CoinRecord.IsAvailable, FadedRecord;
    var after := SpendOne(before, o);
    var r := before[o.hash];
    FadedAt(after, v, o.hash);
    assert after[o.hash] == SpendRecord(r, o.n);
    NotPruned(r, o.n);
    EmptyIsPruned();
    RestoredRecord(r, o.n, Found(v, o.hash));
    forall t | t != o.hash ensures Live(before, t) == Live(v, t) && (Live(before, t) ==> FadedRecord(before[t], v[t])) {
      FadedAt(after, v, t);
    }
    FadedUpdate(before, v, o.hash, r, RestoreRecord(Found(v, o.hash), o.n, StoredUndo(UndoOne(before, o))));
    assert before[o.hash := r] == before;
  }

  lemma NotPruned(r: CoinRecord, n: nat)
    requires r.IsAvailable(n)
    ensures !r.IsPruned()
  {
  }

  lemma EmptyIsPruned()
    ensures EMPTY_RECORD.IsPruned()
  {
  }

  lemma RestoredRecord(r: CoinRecord, n: nat, found: CoinRecord)
    requires r.IsAvailable(n) && r.IsTidy() && r.height >= 1
    requires if SpendRecord(r, n).IsPruned() then found.IsPruned() else FadedRecord(SpendRecord(r, n), found)
    ensures var undo := StoredUndo(SpendUndo(r, n));
            var restored := RestoreRecord(found, n, undo);
            && RestoreClean(found, n, undo) && FadedRecord(r, restored)
            && restored.IsTidy() && restored.height >= 1
  {
    RestoreUndoesSpend(r, n, found);
  }

  /** The rules of CheckBlock and CheckTransaction that disconnecting relies on. */
  predicate WellFormed(vtx: seq<Tx>) {
    && vtx != [] && vtx[0].IsCoinBase()
    && (forall i :: 1 <= i < |vtx| ==> !vtx[i].IsCoinBase())
    && (forall i :: 0 <= i < |vtx| ==> DistinctInputs(vtx[i].vin) && vtx[i].vout != [])
    && (forall i, j :: 0 <= i < |vtx| && 0 <= j < |vtx[i].vout| ==> !vtx[i].vout[j].IsNull())
    && (forall i, j :: 0 <= i < j < |vtx| ==> vtx[i].txid != vtx[j].txid)
  }

  /** No transaction of the block has an id whose coins are still around. */
  predicate NoOverwrite(u: CoinMap, vtx: seq<Tx>) {
    forall i :: 0 <= i < |vtx| ==> !Live(u, vtx[i].txid)
  }

  predicate Spendable(u: CoinMap, vtx: seq<Tx>, height: int, k: nat)
    requires k <= |vtx|
  {
    forall i :: 1 <= i < k ==> HaveInputs(CoinsAfter(u, vtx, height, i), vtx[i].vin)
  }

  /** Spending never brings a pruned record back. */
  lemma {:induction false} SpendKeepsDead(u: CoinMap, vin: seq<TxIn>, k: nat, t: Hash)
    requires Tidy(u) && DistinctInputs(vin) && HaveInputs(u, vin) && k <= |vin| && !Live(u, t)
    ensures !Live(SpendFirst(u, vin, k), t)
  {
    hide Tidy, DistinctInputs, HaveInputs;
    if k > 0 {
      SpendKeepsDead(u, vin, k - 1, t);
      InputInTurn(u, vin, k - 1);
      assert Live(SpendFirst(u, vin, k - 1), vin[k - 1].prevout.hash);
    }
  }

  lemma NewRecordTidy(tx: Tx, height: int)
    requires tx.vout != [] && (forall j :: 0 <= j < |tx.vout| ==> !tx.vout[j].IsNull()) && height >= 1
    ensures NewRecord(tx, height).IsTidy() && !NewRecord(tx, height).IsPruned()
  {
    assert !NewRecord(tx, height).vout[0].IsNull();
  }

  lemma UpdateInvariant(before: CoinMap, tx: Tx, height: int, t: Hash)
    requires Tidy(before) && height >= 1
    requires DistinctInputs(tx.vin) && (tx.IsCoinBase() || HaveInputs(before, tx.vin))
    requires tx.vout != [] && forall j :: 0 <= j < |tx.vout| ==> !tx.vout[j].IsNull()
    ensures Tidy(AfterTx(before, tx, height))
    ensures !Live(before, t) && t != tx.txid ==> !Live(AfterTx(before, tx, height), t)
    ensures Live(AfterTx(before, tx, height), tx.txid)
  {
    NewRecordTidy(tx, height);
    if !tx.IsCoinBase() {
      OthersStaySpendable(before, tx.vin, |tx.vin|, OutPoint(0, 0));
      if !Live(before, t) {
        SpendKeepsDead(before, tx.vin, |tx.vin|, t);
      }
    }
  }

  /** Along a block the database stays tidy, and no id of a later transaction comes to life. */
  lemma {:induction false} ConnectInvariant(u: CoinMap, vtx: seq<Tx>, height: int, k: nat, i: nat)
    requires Tidy(u) && WellFormed(vtx) && height >= 1
    requires k <= i <= |vtx| && Spendable(u, vtx, height, k)
    ensures Tidy(CoinsAfter(u, vtx, height, k))
    ensures i < |vtx| && !Live(u, vtx[i].txid) ==> !Live(CoinsAfter(u, vtx, height, k), vtx[i].txid)
  {
    hide Tidy, Live, AfterTx, DistinctInputs, HaveInputs;
    if k > 0 {
      ConnectInvariant(u, vtx, height, k - 1, i);
      UpdateInvariant(CoinsAfter(u, vtx, height, k - 1), vtx[k - 1], height, if i < |vtx| then vtx[i].txid else 0);
    }
  }

  /** In its turn, transaction i takes the place of coins that are still around. */
  predicate Overwrites(u: CoinMap, vtx: seq<Tx>, height: int, i: nat)
    requires i < |vtx|
  {
    Live(Spent(CoinsAfter(u, vtx, height, i), vtx[i]), vtx[i].txid)
  }

  predicate FreshInTurn(u: CoinMap, vtx: seq<Tx>, height: int, k: nat)
    requires k <= |vtx|
  {
    forall i :: 0 <= i < k ==> !Overwrites(u, vtx, height, i)
  }

  lemma ShapeAt(u: CoinMap, vtx: seq<Tx>, height: int, i: nat)
    requires Tidy(u) && WellFormed(vtx) && height >= 1
    requires i < |vtx| && Spendable(u, vtx, height, |vtx|)
    ensures var before := CoinsAfter(u, vtx, height, i); var tx := vtx[i];
            Tidy(before) && DistinctInputs(tx.vin) && (tx.IsCoinBase() || HaveInputs(before, tx.vin))
    ensures vtx[i].vout != [] && forall j :: 0 <= j < |vtx[i].vout| ==> !vtx[i].vout[j].IsNull()
    ensures vtx[i].IsCoinBase() <==> i == 0
  {
    ConnectInvariant(u, vtx, height, i, i);
  }

  /** The overwrite rule, tested before the block, is enough. */
  lemma NoOverwriteIsFresh(u: CoinMap, vtx: seq<Tx>, height: int, k: nat)
    requires Tidy(u) && WellFormed(vtx) && NoOverwrite(u, vtx) && height >= 1
    requires k <= |vtx| && Spendable(u, vtx, height, |vtx|)
    ensures FreshInTurn(u, vtx, height, k)
  {
    hide Tidy, Live, WellFormed, NoOverwrite, Spendable, CoinsAfter, DistinctInputs, HaveInputs;
    forall i | 0 <= i < k ensures !Overwrites(u, vtx, height, i) {
      BlockFactsAt(u, vtx, height, i);
      if !vtx[i].IsCoinBase() {
        SpendKeepsDead(CoinsAfter(u, vtx, height, i), vtx[i].vin, |vtx[i].vin|, vtx[i].txid);
      }
    }
  }

  lemma BlockFactsAt(u: CoinMap, vtx: seq<Tx>, height: int, i: nat)
    requires Tidy(u) && WellFormed(vtx) && NoOverwrite(u, vtx) && height >= 1
    requires i < |vtx| && Spendable(u, vtx, height, |vtx|)
    ensures var before := CoinsAfter(u, vtx, height, i); var tx := vtx[i];
            Tidy(before) && !Live(before, tx.txid) && DistinctInputs(tx.vin) && (tx.IsCoinBase() || HaveInputs(before, tx.vin))
    ensures vtx[i].vout != [] && forall j :: 0 <= j < |vtx[i].vout| ==> !vtx[i].vout[j].IsNull()
    ensures vtx[i].IsCoinBase() <==> i == 0
  {
    ConnectInvariant(u, vtx, height, i, i);
  }

  /** Disconnecting a block that was connected on top of u, with its undo data read from the
      undo file and from any database that shows the result, reports nothing wrong and gives
      u back: every unspent record returns with its exact length, outputs, height and
      coinbase flag, and with its version unless that is negative and was lost in storage.
      No transaction may overwrite coins in its turn. */
  lemma {:induction false} DisconnectUndoesConnect(u: CoinMap, vtx: seq<Tx>, height: int, k: nat, v: CoinMap)
    requires Tidy(u) && WellFormed(vtx) && height >= 1
    requires k <= |vtx| && Spendable(u, vtx, height, |vtx|) && FreshInTurn(u, vtx, height, k)
    requires Tidy(v) && Faded(CoinsAfter(u, vtx, height, k), v)
    ensures var r := DisconnectFirst(v, vtx, StoredBlockUndo(BlockUndo(u, vtx, height, |vtx|)), height, k);
            r.Disconnected? && r.clean && Faded(u, r.coins) && Tidy(r.coins)
  {
    hide Faded, StoredTxUndo, Tidy, Live, AfterTx, OutputsClean, DistinctInputs, HaveInputs, WellFormed, Spendable,
         Spent, UndoFirst, RestoreFirst, RestoreFirstClean;
    if k > 0 {
      ShapeAt(u, vtx, height, k - 1);
      assert !Overwrites(u, vtx, height, k - 1);
      var undo := StoredBlockUndo(BlockUndo(u, vtx, height, |vtx|));
      var before := CoinsAfter(u, vtx, height, k - 1);
      var tx := vtx[k - 1];
      UndoTransaction(before, tx, height, v);
      if k > 1 {
        BlockUndoAt(u, vtx, height, |vtx|, k - 1);
        DisconnectUndoesConnect(u, vtx, height, k - 1, RestoreFirst(v[tx.txid := EMPTY_RECORD], tx.vin, undo[k - 2], |tx.vin|));
      }
    }
  }

  lemma UndoTransaction(before: CoinMap, tx: Tx, height: int, v: CoinMap)
    requires Tidy(before) && !Live(Spent(before, tx), tx.txid) && height >= 1
    requires DistinctInputs(tx.vin) && (tx.IsCoinBase() || HaveInputs(before, tx.vin))
    requires tx.vout != [] && forall j :: 0 <= j < |tx.vout| ==> !tx.vout[j].IsNull()
    requires Faded(AfterTx(before, tx, height), v) && Tidy(v)
    ensures OutputsClean(v, tx, height)
    ensures var gone := v[tx.txid := EMPTY_RECORD];
            if tx.IsCoinBase() then Faded(before, gone) && Tidy(gone)
            else var undo := StoredTxUndo(TxUndo(before, tx));
                 var w := RestoreFirst(gone, tx.vin, undo, |tx.vin|);
                 RestoreFirstClean(gone, tx.vin, undo, |tx.vin|) && Faded(before, w) && Tidy(w)
  {
    UpdateInvariant(before, tx, height, 0);
    UndoOutputs(before, tx, height, v);
    if !tx.IsCoinBase() {
      RestoreUndoesSpends(before, tx.vin, StoredTxUndo(TxUndo(before, tx)), |tx.vin|, v[tx.txid := EMPTY_RECORD]);
    }
  }

  /** Removing a transaction's record leaves what the spends left. */
  lemma UndoOutputs(before: CoinMap, tx: Tx, height: int, v: CoinMap)
    requires Tidy(before) && !Live(Spent(before, tx), tx.txid)
    requires DistinctInputs(tx.vin) && (tx.IsCoinBase() || HaveInputs(before, tx.vin))
    requires Faded(AfterTx(before, tx, height), v) && Tidy(v) && Live(AfterTx(before, tx, height), tx.txid)
    ensures var gone := v[tx.txid := EMPTY_RECORD];
            Faded(Spent(before, tx), gone) && Tidy(gone)
    ensures OutputsClean(v, tx, height)
  {
    var after := AfterTx(before, tx, height);
    var spent := Spent(before, tx);
    assert Live(v, tx.txid) == Live(after, tx.txid);
    forall t ensures Live(spent, t) == Live(v[tx.txid := EMPTY_RECORD], t)
                     && (Live(spent, t) ==> FadedRecord(spent[t], v[tx.txid := EMPTY_RECORD][t])) {
      assert t != tx.txid ==> Live(v, t) == Live(after, t) && Live(after, t) == Live(spent, t);
    }
  }

  // ---------- when the versions come back ----------

  /** A clean restore keeps the version of a record that is there; a record it brings back
      has the stored version, which is never negative. */
  lemma {:induction false} RestoreVersion(v: CoinMap, vin: seq<TxIn>, undo: seq<TxInUndo>, k: nat, t: Hash)
    requires k <= |vin| == |undo| && RestoreFirstClean(v, vin, StoredTxUndo(undo), k)
    ensures var w := RestoreFirst(v, vin, StoredTxUndo(undo), k);
            if Live(v, t) then Live(w, t) && w[t].version == v[t].version
            else Live(w, t) ==> w[t].version >= 0
    decreases k
  {
    hide StoredTxUndo, StoredUndo, RestoreRecord, RestoreClean, CoinRecord.IsPruned;
    if k > 0 {
      var o := vin[k - 1].prevout;
      EmptyIsPruned();
      StoredAt(undo, k - 1);
      var restored := RestoreRecord(Found(v, o.hash), o.n, StoredTxUndo(undo)[k - 1]);
      RestoreOneVersion(Found(v, o.hash), o.n, undo[k - 1]);
      RestoreVersion(v[o.hash := restored], vin, undo, k - 1, t);
    }
  }

  lemma StoredAt(undo: seq<TxInUndo>, i: nat)
    requires i < |undo|
    ensures StoredTxUndo(undo)[i] == StoredUndo(undo[i])
  {
  }

  lemma RestoreOneVersion(found: CoinRecord, n: nat, undo: TxInUndo)
    requires RestoreClean(found, n, StoredUndo(undo))
    ensures var r := RestoreRecord(found, n, StoredUndo(undo));
            if found.IsPruned() then r.version >= 0 else !r.IsPruned() && r.version == found.version
  {
    if !found.IsPruned() {
      var i :| 0 <= i < |found.vout| && !found.vout[i].IsNull();
      assert RestoreRecord(found, n, StoredUndo(undo)).vout[i] == found.vout[i];
    }
  }

  lemma {:induction false} DisconnectVersion(v: CoinMap, vtx: seq<Tx>, undo: seq<seq<TxInUndo>>, height: int, k: nat, t: Hash)
    requires k <= |vtx| == |undo| + 1 && forall i :: 0 <= i < k ==> vtx[i].txid != t
    requires var r := DisconnectFirst(v, vtx, StoredBlockUndo(undo), height, k); r.Disconnected? && r.clean
    ensures var w := DisconnectFirst(v, vtx, StoredBlockUndo(undo), height, k).coins;
            if Live(v, t) then Live(w, t) && w[t].version == v[t].version
            else Live(w, t) ==> w[t].version >= 0
    decreases k
  {
    hide StoredTxUndo, OutputsClean, RestoreFirst, RestoreFirstClean;
    if k > 1 {
      var tx := vtx[k - 1];
      var gone := v[tx.txid := EMPTY_RECORD];
      assert StoredBlockUndo(undo)[k - 2] == StoredTxUndo(undo[k - 2]);
      RestoreVersion(gone, tx.vin, undo[k - 2], |tx.vin|, t);
      DisconnectVersion(RestoreFirst(gone, tx.vin, StoredTxUndo(undo[k - 2]), |tx.vin|), vtx, undo, height, k - 1, t);
    }
  }

  /** The block spends the last output of this transaction. */
  predicate SpendsLast(u: CoinMap, vtx: seq<Tx>, height: int, t: Hash) {
    Live(u, t) && !Live(CoinsAfter(u, vtx, height, |vtx|), t)
  }

  /** What disconnecting leaves, record by record: u itself, except that a transaction whose
      last output the block spends comes back in its stored form, -1 as 127. */
  lemma DisconnectedRecord(u: CoinMap, vtx: seq<Tx>, height: int, v: CoinMap, t: Hash)
    requires Tidy(u) && WellFormed(vtx) && NoOverwrite(u, vtx) && height >= 1
    requires Spendable(u, vtx, height, |vtx|)
    requires Tidy(v) && Same(CoinsAfter(u, vtx, height, |vtx|), v)
    ensures var r := DisconnectBlock(v, vtx, StoredBlockUndo(BlockUndo(u, vtx, height, |vtx|)), height);
            r.Disconnected? && r.clean && Live(r.coins, t) == Live(u, t) &&
            (Live(u, t) ==> r.coins[t] == if SpendsLast(u, vtx, height, t) then StoredRecord(u[t]) else u[t])
  {
    hide Tidy, Spendable, DisconnectFirst, CoinsAfter, BlockUndo, StoredBlockUndo;
    var after, undo := CoinsAfter(u, vtx, height, |vtx|), BlockUndo(u, vtx, height, |vtx|);
    SameIsFaded(after, v);
    NoOverwriteIsFresh(u, vtx, height, |vtx|);
    DisconnectUndoesConnect(u, vtx, height, |vtx|, v);
    assert Live(after, t) == Live(v, t);
    var w := DisconnectFirst(v, vtx, StoredBlockUndo(undo), height, |vtx|).coins;
    assert Live(u, t) == Live(w, t);
    if Live(u, t) {
      ConnectVersion(u, vtx, height, |vtx|, t);
      DisconnectVersion(v, vtx, undo, height, |vtx|, t);
    }
  }

  /** So disconnecting gives back every version, too, exactly if no transaction whose last
      output the block spends has a negative one. */
  lemma VersionsComeBackIff(u: CoinMap, vtx: seq<Tx>, height: int, v: CoinMap)
    requires Tidy(u) && WellFormed(vtx) && NoOverwrite(u, vtx) && height >= 1
    requires Spendable(u, vtx, height, |vtx|)
    requires Tidy(v) && Same(CoinsAfter(u, vtx, height, |vtx|), v)
    ensures var r := DisconnectBlock(v, vtx, StoredBlockUndo(BlockUndo(u, vtx, height, |vtx|)), height);
            r.Disconnected? && r.clean &&
            (Same(u, r.coins) <==> forall t :: SpendsLast(u, vtx, height, t) ==> u[t].version >= 0)
  {
    hide Tidy, Spendable, DisconnectBlock, CoinsAfter, BlockUndo, StoredBlockUndo, WellFormed, NoOverwrite;
    DisconnectedRecord(u, vtx, height, v, 0);
    var w := DisconnectBlock(v, vtx, StoredBlockUndo(BlockUndo(u, vtx, height, |vtx|)), height).coins;
    forall t ensures Live(u, t) == Live(w, t)
             ensures Live(u, t) ==> (u[t] == w[t] <==> (SpendsLast(u, vtx, height, t) ==> u[t].version >= 0))
    {
      DisconnectedRecord(u, vtx, height, v, t);
    }
  }

  lemma {:induction false} SpendVersion(u: CoinMap, vin: seq<TxIn>, k: nat, t: Hash)
    requires k <= |vin| && t in u
    ensures t in SpendFirst(u, vin, k) && SpendFirst(u, vin, k)[t].version == u[t].version
  {
    if k > 0 {
      SpendVersion(u, vin, k - 1, t);
    }
  }

  /** Connecting a block changes no version. */
  lemma {:induction false} ConnectVersion(u: CoinMap, vtx: seq<Tx>, height: int, k: nat, t: Hash)
    requires k <= |vtx| && NoOverwrite(u, vtx) && Live(u, t)
    ensures t in CoinsAfter(u, vtx, height, k) && CoinsAfter(u, vtx, height, k)[t].version == u[t].version
  {
    hide SpendFirst;
    if k > 0 {
      ConnectVersion(u, vtx, height, k - 1, t);
      SpendVersion(CoinsAfter(u, vtx, height, k - 1), vtx[k - 1].vin, |vtx[k - 1].vin|, t);
    }
  }

  lemma SameIsFaded(u: CoinMap, v: CoinMap)
    requires Same(u, v)
    ensures Faded(u, v)
  {
    forall t ensures Live(u, t) == Live(v, t) && (Live(u, t) ==> FadedRecord(u[t], v[t])) {
    }
  }

  // ---------- overwriting ----------

  lemma {:induction false} DeadStaysDead(u: CoinMap, vin: seq<TxIn>, j: nat, k: nat, t: Hash)
    requires Tidy(u) && DistinctInputs(vin) && HaveInputs(u, vin) && j <= k <= |vin| && !Live(SpendFirst(u, vin, j), t)
    ensures !Live(SpendFirst(u, vin, k), t)
    decreases k
  {
    hide Tidy, DistinctInputs, HaveInputs;
    if j < k {
      DeadStaysDead(u, vin, j, k - 1, t);
      InputInTurn(u, vin, k - 1);
      assert Live(SpendFirst(u, vin, k - 1), vin[k - 1].prevout.hash);
    }
  }

  /** Undo data for record t carries no height: the record was not emptied. */
  ghost predicate NoHeights(vin: seq<TxIn>, undo: seq<TxInUndo>, t: Hash) {
    |undo| == |vin| && forall j :: 0 <= j < |vin| && vin[j].prevout.hash == t ==> undo[j].height == 0
  }

  lemma SurvivorHasNoHeights(before: CoinMap, vin: seq<TxIn>, t: Hash)
    requires Tidy(before) && DistinctInputs(vin) && HaveInputs(before, vin) && Live(SpendFirst(before, vin, |vin|), t)
    ensures NoHeights(vin, StoredTxUndo(UndoFirst(before, vin, |vin|)), t)
  {
    hide Tidy, DistinctInputs, HaveInputs, SpendFirst, UndoFirst, StoredTxUndo;
    var undo := UndoFirst(before, vin, |vin|);
    forall j | 0 <= j < |vin| && vin[j].prevout.hash == t ensures StoredTxUndo(undo)[j].height == 0 {
      UndoFirstAt(before, vin, |vin|, j);
      StoredAt(undo, j);
      InputInTurn(before, vin, j);
      SpendStep(before, vin, j);
      if !Live(SpendFirst(before, vin, j + 1), t) {
        DeadStaysDead(before, vin, j + 1, |vin|, t);
      }
      NoHeightIfLive(SpendFirst(before, vin, j), vin[j].prevout);
    }
  }

  lemma SpendStep(u: CoinMap, vin: seq<TxIn>, j: nat)
    requires j < |vin|
    ensures SpendFirst(u, vin, j + 1) == SpendOne(SpendFirst(u, vin, j), vin[j].prevout)
  {
  }

  lemma NoHeightIfLive(u: CoinMap, o: OutPoint)
    requires CanSpend(u, o) && Live(SpendOne(u, o), o.hash)
    ensures UndoOne(u, o).height == 0
  {
  }

  /** The record of t, if there is one, is not one a block of height 1 and more made. */
  predicate Heightless(v: CoinMap, t: Hash) {
    t in v ==> v[t].height == 0
  }

  lemma RestoredHeight(found: CoinRecord, n: nat, undo: TxInUndo)
    ensures undo.height == 0 ==> RestoreRecord(found, n, undo).height == found.height
  {
  }

  lemma {:induction false} RestoreStaysHeightless(v: CoinMap, vin: seq<TxIn>, undo: seq<TxInUndo>, k: nat, t: Hash)
    requires Heightless(v, t) && NoHeights(vin, undo, t) && k <= |vin|
    ensures Heightless(RestoreFirst(v, vin, undo, k), t)
    decreases k
  {
    hide RestoreRecord;
    if k > 0 {
      var o := vin[k - 1].prevout;
      RestoredHeight(Found(v, o.hash), o.n, undo[k - 1]);
      RestoreStaysHeightless(v[o.hash := RestoreRecord(Found(v, o.hash), o.n, undo[k - 1])], vin, undo, k - 1, t);
    }
  }

  lemma {:induction false} DisconnectStaysHeightless(v: CoinMap, vtx: seq<Tx>, undo: seq<seq<TxInUndo>>, height: int, k: nat, t: Hash)
    requires k <= |vtx| == |undo| + 1 && Heightless(v, t)
    requires forall i :: 1 <= i < k ==> NoHeights(vtx[i].vin, undo[i - 1], t)
    ensures var r := DisconnectFirst(v, vtx, undo, height, k); r.Disconnected? && Heightless(r.coins, t)
    decreases k
  {
    hide RestoreFirst, RestoreFirstClean, OutputsClean, NoHeights;
    if k > 1 {
      var tx := vtx[k - 1];
      assert NoHeights(tx.vin, undo[k - 2], t);
      SameLength(tx.vin, undo[k - 2], t);
      var gone := v[tx.txid := EMPTY_RECORD];
      RestoreStaysHeightless(gone, tx.vin, undo[k - 2], |tx.vin|, t);
      DisconnectStaysHeightless(RestoreFirst(gone, tx.vin, undo[k - 2], |tx.vin|), vtx, undo, height, k - 1, t);
    }
  }

  lemma SameLength(vin: seq<TxIn>, undo: seq<TxInUndo>, t: Hash)
    requires NoHeights(vin, undo, t)
    ensures |undo| == |vin|
  {
  }

  /** What is alive at transaction i was alive before, unless one in between made it. */
  lemma {:induction false} AliveBefore(u: CoinMap, vtx: seq<Tx>, height: int, j: nat, i: nat, t: Hash)
    requires Tidy(u) && WellFormed(vtx) && height >= 1 && Spendable(u, vtx, height, |vtx|)
    requires j <= i < |vtx| && Live(CoinsAfter(u, vtx, height, i), t) && forall l :: 0 <= l < i ==> vtx[l].txid != t
    ensures Live(CoinsAfter(u, vtx, height, j), t)
    decreases i
  {
    hide Tidy, Live, AfterTx, DistinctInputs, HaveInputs, WellFormed, Spendable;
    if j < i {
      ShapeAt(u, vtx, height, i - 1);
      UpdateInvariant(CoinsAfter(u, vtx, height, i - 1), vtx[i - 1], height, t);
      AliveBefore(u, vtx, height, j, i - 1, t);
    }
  }

  /** Up to an overwritten record's last moment, all undo data for it carries no height. */
  lemma OverwrittenHasNoHeights(u: CoinMap, vtx: seq<Tx>, height: int, i: nat, j: nat)
    requires Tidy(u) && WellFormed(vtx) && height >= 1 && Spendable(u, vtx, height, |vtx|)
    requires 1 <= j <= i < |vtx| && Overwrites(u, vtx, height, i)
    ensures NoHeights(vtx[j].vin, StoredBlockUndo(BlockUndo(u, vtx, height, |vtx|))[j - 1], vtx[i].txid)
  {
    hide Tidy, DistinctInputs, HaveInputs, Spendable, SpendFirst, UndoFirst, StoredTxUndo, NoHeights, CoinsAfter, BlockUndo;
    var t := vtx[i].txid;
    var before := CoinsAfter(u, vtx, height, j);
    ShapeAt(u, vtx, height, j);
    BlockUndoAt(u, vtx, height, |vtx|, j);
    StillThere(u, vtx, height, i, j);
    SurvivorHasNoHeights(before, vtx[j].vin, t);
  }

  lemma StillThere(u: CoinMap, vtx: seq<Tx>, height: int, i: nat, j: nat)
    requires Tidy(u) && WellFormed(vtx) && height >= 1 && Spendable(u, vtx, height, |vtx|)
    requires j <= i < |vtx| && Overwrites(u, vtx, height, i)
    ensures Live(CoinsAfter(u, vtx, height, j), vtx[i].txid) && Live(Spent(CoinsAfter(u, vtx, height, j), vtx[j]), vtx[i].txid)
  {
    hide Tidy, DistinctInputs, HaveInputs, Spendable, SpendFirst;
    var t := vtx[i].txid;
    ShapeAt(u, vtx, height, i);
    if !Live(CoinsAfter(u, vtx, height, i), t) {
      SpendKeepsDead(CoinsAfter(u, vtx, height, i), vtx[i].vin, |vtx[i].vin|, t);
    }
    AliveBefore(u, vtx, height, j, i, t);
    if j < i {
      AliveBefore(u, vtx, height, j + 1, i, t);
      assert vtx[j].txid != t;
      assert CoinsAfter(u, vtx, height, j + 1) == AfterTx(CoinsAfter(u, vtx, height, j), vtx[j], height);
    }
  }

  lemma HeightlessIsLost(u: CoinMap, w: CoinMap, t: Hash)
    requires Tidy(u) && Live(u, t) && Heightless(w, t)
    ensures !Faded(u, w)
  {
    if Faded(u, w) {
      FadedAt(u, w, t);
    }
  }

  /** Coins that a transaction overwrites in its turn are not there after disconnecting. */
  lemma {:induction false} OverwrittenIsLost(u: CoinMap, vtx: seq<Tx>, height: int, k: nat, v: CoinMap)
    requires Tidy(u) && WellFormed(vtx) && height >= 1
    requires k <= |vtx| && Spendable(u, vtx, height, |vtx|) && !FreshInTurn(u, vtx, height, k)
    requires Tidy(v) && Faded(CoinsAfter(u, vtx, height, k), v)
    ensures var r := DisconnectFirst(v, vtx, StoredBlockUndo(BlockUndo(u, vtx, height, |vtx|)), height, k);
            r.Disconnected? && !Faded(u, r.coins)
  {
    hide Faded, StoredTxUndo, Tidy, Live, AfterTx, OutputsClean, DistinctInputs, HaveInputs, WellFormed, Spendable,
         Spent, UndoFirst, RestoreFirst, RestoreFirstClean, Overwrites, NoHeights;
    var undo := StoredBlockUndo(BlockUndo(u, vtx, height, |vtx|));
    var tx := vtx[k - 1];
    var gone := v[tx.txid := EMPTY_RECORD];
    ShapeAt(u, vtx, height, k - 1);
    if Overwrites(u, vtx, height, k - 1) {
      StillThere(u, vtx, height, k - 1, 0);
      forall j | 1 <= j < k ensures NoHeights(vtx[j].vin, undo[j - 1], tx.txid) {
        OverwrittenHasNoHeights(u, vtx, height, k - 1, j);
      }
      if k > 1 {
        SameLength(tx.vin, undo[k - 2], tx.txid);
        RestoreStaysHeightless(gone, tx.vin, undo[k - 2], |tx.vin|, tx.txid);
        DisconnectStaysHeightless(RestoreFirst(gone, tx.vin, undo[k - 2], |tx.vin|), vtx, undo, height, k - 1, tx.txid);
      }
      HeightlessIsLost(u, DisconnectFirst(v, vtx, undo, height, k).coins, tx.txid);
    } else {
      UndoUnlessOverwritten(u, vtx, height, k - 1, v);
      BlockUndoAt(u, vtx, height, |vtx|, k - 1);
      OverwrittenIsLost(u, vtx, height, k - 1, RestoreFirst(gone, tx.vin, undo[k - 2], |tx.vin|));
    }
  }

  lemma UndoUnlessOverwritten(u: CoinMap, vtx: seq<Tx>, height: int, i: nat, v: CoinMap)
    requires Tidy(u) && WellFormed(vtx) && height >= 1 && Spendable(u, vtx, height, |vtx|)
    requires 1 <= i < |vtx| && !Overwrites(u, vtx, height, i) && Tidy(v) && Faded(CoinsAfter(u, vtx, height, i + 1), v)
    ensures var gone := v[vtx[i].txid := EMPTY_RECORD];
            var undo := StoredTxUndo(TxUndo(CoinsAfter(u, vtx, height, i), vtx[i]));
            |undo| == |vtx[i].vin| && var w := RestoreFirst(gone, vtx[i].vin, undo, |vtx[i].vin|);
            Faded(CoinsAfter(u, vtx, height, i), w) && Tidy(w)
  {
    hide Faded, Tidy, Live, AfterTx, OutputsClean, DistinctInputs, HaveInputs, Spendable, Spent, RestoreFirst, RestoreFirstClean, StoredTxUndo;
    ShapeAt(u, vtx, height, i);
    UndoTransaction(CoinsAfter(u, vtx, height, i), vtx[i], height, v);
  }

  /** For every block: disconnecting gives the coins back if and only if no transaction took,
      in its turn, the place of coins that were still around. */
  lemma CoinsComeBackIff(u: CoinMap, vtx: seq<Tx>, height: int, v: CoinMap)
    requires Tidy(u) && WellFormed(vtx) && height >= 1 && Spendable(u, vtx, height, |vtx|)
    requires Tidy(v) && Faded(CoinsAfter(u, vtx, height, |vtx|), v)
    ensures var r := DisconnectBlock(v, vtx, StoredBlockUndo(BlockUndo(u, vtx, height, |vtx|)), height);
            && r.Disconnected? && (Faded(u, r.coins) <==> FreshInTurn(u, vtx, height, |vtx|))
            && (FreshInTurn(u, vtx, height, |vtx|) ==> r.clean)
  {
    hide Faded, Tidy, Spendable, CoinsAfter, BlockUndo, StoredBlockUndo, DisconnectFirst, FreshInTurn;
    if FreshInTurn(u, vtx, height, |vtx|) {
      DisconnectUndoesConnect(u, vtx, height, |vtx|, v);
    } else {
      OverwrittenIsLost(u, vtx, height, |vtx|, v);
    }
  }

  /** And nothing reports the loss: a block whose coinbase takes the id of a transaction with
      unspent coins disconnects cleanly. */
  lemma OverwriteLosesCoins(u: CoinMap, coinbase: Tx, height: int)
    requires Tidy(u) && WellFormed([coinbase]) && height >= 1
    ensures var r := DisconnectFirst(CoinsAfter(u, [coinbase], height, 1), [coinbase], [], height, 1);
            r.Disconnected? && r.clean && (Same(r.coins, u) <==> !Live(u, coinbase.txid))
  {
    var after := CoinsAfter(u, [coinbase], height, 1);
    assert after == AfterTx(CoinsAfter(u, [coinbase], height, 0), coinbase, height);
    assert [coinbase][0].IsCoinBase();
    assert after == u[coinbase.txid := NewRecord(coinbase, height)];
    var gone := after[coinbase.txid := EMPTY_RECORD];
    assert gone == u[coinbase.txid := EMPTY_RECORD];
    assert !Live(gone, coinbase.txid);
    if !Live(u, coinbase.txid) {
      forall t ensures Live(gone, t) == Live(u, t) && (Live(gone, t) ==> gone[t] == u[t]) {
        assert t != coinbase.txid ==> Live(gone, t) == Live(u, t);
      }
    }
  }

  // ---------- the result of connecting depends on unspent records only ----------

  lemma {:induction false} SpendCongruent(u: CoinMap, v: CoinMap, vin: seq<TxIn>, k: nat)
    requires Faded(u, v) && k <= |vin|
    ensures Faded(SpendFirst(u, vin, k), SpendFirst(v, vin, k))
    ensures StoredTxUndo(UndoFirst(u, vin, k)) == StoredTxUndo(UndoFirst(v, vin, k))
  {
    if k > 0 {
      SpendCongruent(u, v, vin, k - 1);
      var u' := SpendFirst(u, vin, k - 1);
      var v' := SpendFirst(v, vin, k - 1);
      var o := vin[k - 1].prevout;
      SpendOneCongruent(u', v', o);
      StoredAppend(UndoFirst(u, vin, k - 1), UndoOne(u', o));
      StoredAppend(UndoFirst(v, vin, k - 1), UndoOne(v', o));
    }
  }

  lemma SpendOneCongruent(u: CoinMap, v: CoinMap, o: OutPoint)
    requires Faded(u, v)
    ensures Faded(SpendOne(u, o), SpendOne(v, o)) && StoredUndo(UndoOne(u, o)) == StoredUndo(UndoOne(v, o))
  {
    assert CanSpend(u, o) ==> Live(u, o.hash);
    assert CanSpend(v, o) ==> Live(v, o.hash);
    assert Live(u, o.hash) == Live(v, o.hash);
    if CanSpend(u, o) {
      FadedUpdate(u, v, o.hash, SpendRecord(u[o.hash], o.n), SpendRecord(v[o.hash], o.n));
    }
  }

  lemma UpdateCongruent(u: CoinMap, v: CoinMap, tx: Tx, height: int)
    requires Faded(u, v)
    ensures Faded(AfterTx(u, tx, height), AfterTx(v, tx, height))
    ensures StoredTxUndo(TxUndo(u, tx)) == StoredTxUndo(TxUndo(v, tx))
  {
    SpendCongruent(u, v, tx.vin, |tx.vin|);
    var u', v' := Spent(u, tx), Spent(v, tx);
    FadedUpdate(u', v', tx.txid, NewRecord(tx, height), NewRecord(tx, height));
  }

  /** Databases that agree on unspent records up to stored versions are taken to databases
      that agree so, and the undo data reads back the same: this is what lets undo data
      written at one connection serve a later reconnection of the same block. */
  lemma {:induction false} ConnectCongruent(u: CoinMap, v: CoinMap, vtx: seq<Tx>, height: int, k: nat)
    requires Faded(u, v) && k <= |vtx|
    ensures Faded(CoinsAfter(u, vtx, height, k), CoinsAfter(v, vtx, height, k))
    ensures k >= 1 ==> StoredBlockUndo(BlockUndo(u, vtx, height, k)) == StoredBlockUndo(BlockUndo(v, vtx, height, k))
  {
    hide Faded, AfterTx, TxUndo, StoredTxUndo, StoredBlockUndo;
    if k > 0 {
      ConnectCongruent(u, v, vtx, height, k - 1);
      var u', v' := CoinsAfter(u, vtx, height, k - 1), CoinsAfter(v, vtx, height, k - 1);
      UpdateCongruent(u', v', vtx[k - 1], height);
      if k > 1 {
        StoredBlockAppend(BlockUndo(u, vtx, height, k - 1), TxUndo(u', vtx[k - 1]));
        StoredBlockAppend(BlockUndo(v, vtx, height, k - 1), TxUndo(v', vtx[k - 1]));
      }
    }
  }
}
