/** The loops of ConnectBlock and DisconnectBlock, run against a view.
    (src/main.cpp, lines 1259-1416, 1437-1495 and 1602-1666) */
module Connecting {
  import opened Basics
  import opened Coins
  import opened Blocks
  import opened Validation
  import opened Views

  /** Nothing a reader of the view can see has changed. */
  twostate predicate Untouched(view: CoinsView)
    requires old(view.Valid()) && view.Valid()
    reads view.Repr
  {
    && view.Contents() == old(view.Contents())
    && Kept(view)
  }

  /** The tip of the view and everything below it are as before. */
  twostate predicate Kept(view: CoinsView)
    requires old(view.Valid()) && view.Valid()
    reads view.Repr
  {
    && view.Best() == old(view.Best()) && view.tip == old(view.tip)
    && view.BaseContents() == old(view.BaseContents()) && view.BaseBest() == old(view.BaseBest())
  }

  // ---------- one transaction ----------

  method UpdateCoins(view: CoinsView, tx: Tx, height: int) returns (undo: seq<TxInUndo>)
    requires view.Valid() && view.base != null && Tidy(view.Contents()) && DistinctInputs(tx.vin)
    requires tx.IsCoinBase() || HaveInputs(view.Contents(), tx.vin)
    modifies view.Repr
    ensures view.Valid() && Kept(view)
    ensures view.Contents() == AfterTx(old(view.Contents()), tx, height)
    ensures undo == TxUndo(old(view.Contents()), tx)
  {
    hide Tidy, DistinctInputs, HaveInputs;
    ghost var u := view.Contents();
    undo := [];
    if !tx.IsCoinBase() {
      for j := 0 to |tx.vin|
        invariant view.Valid() && Kept(view)
        invariant view.Contents() == SpendFirst(u, tx.vin, j) && undo == UndoFirst(u, tx.vin, j)
      {
        InputInTurn(u, tx.vin, j);
        var o := tx.vin[j].prevout;
        var found, coins := view.GetCoins(o.hash);
        var ok, spent, txInUndo := Spend(coins, o.n);
        assert ok;                             // the assertion of the source never fires
        view.SetCoins(o.hash, spent);
        undo := undo + [txInUndo];
      }
    }
    view.SetCoins(tx.txid, NewRecord(tx, height));
  }

  method HasInputs(view: CoinsView, tx: Tx) returns (ok: bool)
    requires view.Valid()
    modifies view.Repr
    ensures view.Valid() && Untouched(view)
    ensures ok <==> tx.IsCoinBase() || HaveInputs(view.Contents(), tx.vin)
  {
    if tx.IsCoinBase() {
      return true;
    }
    for i := 0 to |tx.vin|
      invariant view.Valid() && Untouched(view)
    {
      var found := view.HaveCoins(tx.vin[i].prevout.hash);
      if !found {
        return false;
      }
    }
    for i := 0 to |tx.vin|
      invariant view.Valid() && Untouched(view)
      invariant forall j :: 0 <= j < i ==> CanSpend(view.Contents(), tx.vin[j].prevout)
    {
      var found, coins := view.GetCoins(tx.vin[i].prevout.hash);
      if !coins.IsAvailable(tx.vin[i].prevout.n) {
        return false;
      }
    }
    return true;
  }

  method GetValueIn(view: CoinsView, tx: Tx) returns (total: int)
    requires view.Valid() && (tx.IsCoinBase() || HaveInputs(view.Contents(), tx.vin))
    modifies view.Repr
    ensures view.Valid() && Untouched(view)
    ensures total == TxValueIn(view.Contents(), tx)
  {
    total := 0;
    if tx.IsCoinBase() {
      return;
    }
    for i := 0 to |tx.vin|
      invariant view.Valid() && Untouched(view)
      invariant total == ValueIn(view.Contents(), tx.vin, i)
    {
      var found, coins := view.GetCoins(tx.vin[i].prevout.hash);
      assert CanSpend(view.Contents(), tx.vin[i].prevout);
      total := total + coins.vout[tx.vin[i].prevout.n].value;
    }
  }

  method GetP2SHSigOpCount(rules: Rules, view: CoinsView, tx: Tx) returns (count: nat)
    requires view.Valid() && HaveInputs(view.Contents(), tx.vin)
    modifies view.Repr
    ensures view.Valid() && Untouched(view)
    ensures count == P2SHSigOps(rules, view.Contents(), tx.vin, |tx.vin|)
  {
    count := 0;
    for i := 0 to |tx.vin|
      invariant view.Valid() && Untouched(view)
      invariant count == P2SHSigOps(rules, view.Contents(), tx.vin, i)
    {
      var found, coins := view.GetCoins(tx.vin[i].prevout.hash);
      assert CanSpend(view.Contents(), tx.vin[i].prevout);
      count := count + (rules.p2shSigOps)(coins.vout[tx.vin[i].prevout.n].script, tx.vin[i].scriptSig);
    }
  }

  lemma {:induction false} ValueInMonotone(u: CoinMap, vin: seq<TxIn>, j: nat, k: nat)
    requires j <= k <= |vin| && forall i :: 0 <= i < |vin| ==> InputValue(u, vin[i].prevout) >= 0
    ensures ValueIn(u, vin, j) <= ValueIn(u, vin, k)
  {
    if j < k {
      ValueInMonotone(u, vin, j, k - 1);
    }
  }

  /** The inexpensive part of CheckInputs. */
  method CheckInputs(view: CoinsView, tx: Tx, height: int) returns (ok: bool)
    requires view.Valid() && !tx.IsCoinBase()
    modifies view.Repr
    ensures view.Valid() && Untouched(view)
    ensures ok <==> InputsOk(view.Contents(), tx, height)
  {
    var have := HasInputs(view, tx);
    if !have {
      return false;
    }
    var valueIn := 0;
    for i := 0 to |tx.vin|
      invariant view.Valid() && Untouched(view)
      invariant HaveInputs(view.Contents(), tx.vin)
      invariant valueIn == ValueIn(view.Contents(), tx.vin, i) && MoneyRange(valueIn)
      invariant forall j :: 0 <= j < i ==> Matured(view.Contents(), tx.vin[j].prevout, height)
                                           && MoneyRange(InputValue(view.Contents(), tx.vin[j].prevout))
    {
      var o := tx.vin[i].prevout;
      var found, coins := view.GetCoins(o.hash);
      assert CanSpend(view.Contents(), o);
      if coins.coinBase && height - coins.height < COINBASE_MATURITY {
        return false;
      }
      valueIn := valueIn + coins.vout[o.n].value;
      if !MoneyRange(coins.vout[o.n].value) || !MoneyRange(valueIn) {
        if InputsOk(view.Contents(), tx, height) {
          ValueInMonotone(view.Contents(), tx.vin, i + 1, |tx.vin|);
        }
        return false;
      }
    }
    var valueOut := SumOut(tx.vout, |tx.vout|);
    if valueIn < valueOut {
      return false;
    }
    return valueIn - valueOut >= MinFee(tx);
  }

  /** The script checks of one transaction, each evaluated against the output it spends. */
  method CheckScripts(rules: Rules, view: CoinsView, tx: Tx, p2sh: bool) returns (ok: bool)
    requires view.Valid() && HaveInputs(view.Contents(), tx.vin)
    modifies view.Repr
    ensures view.Valid() && Untouched(view)
    ensures ok <==> ScriptsOk(rules, view.Contents(), tx, p2sh)
  {
    ok := true;
    for i := 0 to |tx.vin|
      invariant view.Valid() && Untouched(view)
      invariant ok <==> forall j :: 0 <= j < i ==> (rules.verifyScript)(tx, j, SpentScript(view.Contents(), tx.vin[j].prevout), p2sh)
    {
      var found, coins := view.GetCoins(tx.vin[i].prevout.hash);
      assert CanSpend(view.Contents(), tx.vin[i].prevout);
      ok := ok && (rules.verifyScript)(tx, i, coins.vout[tx.vin[i].prevout.n].script, p2sh);
    }
  }

  // ---------- all transactions of a block ----------

  datatype ConnectResult = Rejected | Accepted(undo: seq<seq<TxInUndo>>, valueIn: int, valueOut: int)

  predicate ScriptsPass(rules: Rules, u: CoinMap, block: Block, height: int, i: nat)
    requires i < |block.vtx|
  {
    !block.vtx[i].IsCoinBase() && height >= rules.scriptHeight ==>
      ScriptsOk(rules, CoinsAfter(u, block.vtx, height, i), block.vtx[i], P2SHActive(block))
  }

  predicate AmountsPass(rules: Rules, u: CoinMap, block: Block, height: int, i: nat)
    requires i < |block.vtx|
  {
    && SigOps(rules, u, block, height, i + 1) <= MAX_BLOCK_SIGOPS
    && (!block.vtx[i].IsCoinBase() ==> InputsOk(CoinsAfter(u, block.vtx, height, i), block.vtx[i], height))
  }

  /** Everything ConnectBlock decides from the database, once CheckBlock and the overwrite
      rule have passed. */
  predicate AllPass(rules: Rules, u: CoinMap, block: Block, height: int)
    requires block.vtx != []
  {
    && (forall i :: 0 <= i < |block.vtx| ==> TxConnects(rules, u, block, height, i))
    && CoinbaseWithinLimit(rules, block, BlockFees(u, block.vtx, height, |block.vtx|))
  }

  lemma AllPassParts(rules: Rules, u: CoinMap, block: Block, height: int, i: nat)
    requires i < |block.vtx| && AllPass(rules, u, block, height)
    ensures AmountsPass(rules, u, block, height, i) && ScriptsPass(rules, u, block, height, i)
  {
    assert TxConnects(rules, u, block, height, i);
  }

  lemma PartsAllPass(rules: Rules, u: CoinMap, block: Block, height: int)
    requires block.vtx != []
    requires forall i :: 0 <= i < |block.vtx| ==> AmountsPass(rules, u, block, height, i)
    requires forall i :: 0 <= i < |block.vtx| ==> ScriptsPass(rules, u, block, height, i)
    requires CoinbaseWithinLimit(rules, block, BlockFees(u, block.vtx, height, |block.vtx|))
    ensures AllPass(rules, u, block, height)
  {
    hide SigOps, CoinsAfter, InputsOk, ScriptsOk, CoinbaseWithinLimit, BlockFees;
    forall i | 0 <= i < |block.vtx| ensures TxConnects(rules, u, block, height, i) {
      assert AmountsPass(rules, u, block, height, i) && ScriptsPass(rules, u, block, height, i);
    }
  }

  /** One turn of the loop: every check of transaction i that does not run a script. */
  method CheckAmounts(rules: Rules, view: CoinsView, block: Block, height: int, i: nat, sigOps: int, ghost u: CoinMap)
    returns (ok: bool, newSigOps: int)
    requires view.Valid() && i < |block.vtx|
    requires view.Contents() == CoinsAfter(u, block.vtx, height, i) && sigOps == SigOps(rules, u, block, height, i)
    modifies view.Repr
    ensures view.Valid() && Untouched(view)
    ensures ok <==> AmountsPass(rules, u, block, height, i)
    ensures ok ==> newSigOps == SigOps(rules, u, block, height, i + 1)
  {
    hide CoinsAfter, P2SHSigOps;
    var tx := block.vtx[i];
    newSigOps := sigOps + tx.sigOps;
    if newSigOps > MAX_BLOCK_SIGOPS {
      return false, newSigOps;
    }
    if tx.IsCoinBase() {
      return true, newSigOps;
    }
    var have := HasInputs(view, tx);
    if !have {
      return false, newSigOps;
    }
    if P2SHActive(block) {
      var more := GetP2SHSigOpCount(rules, view, tx);
      newSigOps := newSigOps + more;
      if newSigOps > MAX_BLOCK_SIGOPS {
        return false, newSigOps;
      }
    }
    ok := CheckInputs(view, tx, height);
  }

  /** The local variables of ConnectBlock's loop. */
  datatype Tally = Tally(undo: seq<seq<TxInUndo>>, fees: int, valueIn: int, valueOut: int, sigOps: int)

  function TallyAt(rules: Rules, u: CoinMap, block: Block, height: int, i: nat): Tally
    requires i <= |block.vtx|
  {
    Tally(if i == 0 then [] else BlockUndo(u, block.vtx, height, i), BlockFees(u, block.vtx, height, i),
          BlockValueIn(u, block.vtx, height, i), BlockValueOut(block.vtx, i), SigOps(rules, u, block, height, i))
  }

  lemma TallyEnds(rules: Rules, u: CoinMap, block: Block, height: int)
    requires BlockOk(rules, block)
    ensures TallyAt(rules, u, block, height, 0) == Tally([], 0, 0, 0, 0) && CoinsAfter(u, block.vtx, height, 0) == u
    ensures block.vtx != []
    ensures var t := TallyAt(rules, u, block, height, |block.vtx|);
            && t.undo == BlockUndo(u, block.vtx, height, |block.vtx|)
            && t.fees == BlockFees(u, block.vtx, height, |block.vtx|)
            && t.valueIn == BlockValueIn(u, block.vtx, height, |block.vtx|)
            && t.valueOut == BlockValueOut(block.vtx, |block.vtx|)
  {
  }

  lemma TallyStep(rules: Rules, u: CoinMap, block: Block, height: int, i: nat)
    requires BlockOk(rules, block) && i < |block.vtx|
    ensures var before := CoinsAfter(u, block.vtx, height, i); var tx := block.vtx[i];
            var t := TallyAt(rules, u, block, height, i); var t' := TallyAt(rules, u, block, height, i + 1);
            var valueIn := TxValueIn(before, tx); var valueOut := SumOut(tx.vout, |tx.vout|);
            && CoinsAfter(u, block.vtx, height, i + 1) == AfterTx(before, tx, height)
            && t'.undo == (if tx.IsCoinBase() then t.undo else t.undo + [TxUndo(before, tx)])
            && t'.fees == (if tx.IsCoinBase() then t.fees else t.fees + (valueIn - valueOut))
            && t'.valueIn == t.valueIn + valueIn && t'.valueOut == t.valueOut + valueOut
            && t.sigOps == SigOps(rules, u, block, height, i) && t'.sigOps == SigOps(rules, u, block, height, i + 1)
  {
    hide AfterTx, TxUndo, ValueIn, SumOut, P2SHSigOps, TransactionOk;
    TransactionFacts(rules, block, i);
  }

  method ConnectOne(rules: Rules, view: CoinsView, block: Block, height: int, i: nat, tally: Tally, ghost u: CoinMap)
    returns (ok: bool, next: Tally, scriptsOk: bool)
    requires view.Valid() && view.base != null && Tidy(view.Contents()) && height >= 1
    requires BlockOk(rules, block) && i < |block.vtx|
    requires view.Contents() == CoinsAfter(u, block.vtx, height, i) && tally == TallyAt(rules, u, block, height, i)
    modifies view.Repr
    ensures view.Valid() && Kept(view)
    ensures ok <==> AmountsPass(rules, u, block, height, i)
    ensures ok ==> view.Contents() == CoinsAfter(u, block.vtx, height, i + 1) && Tidy(view.Contents())
    ensures ok ==> next == TallyAt(rules, u, block, height, i + 1)
    ensures ok ==> (scriptsOk <==> ScriptsPass(rules, u, block, height, i))
  {
    hide Tidy, DistinctInputs, HaveInputs, InputsOk, ScriptsOk, AmountsPass, ScriptsPass, BlockOk, TallyAt, CoinsAfter, AfterTx,
         TxUndo, TxValueIn, SumOut, SigOps;
    var tx := block.vtx[i];
    TransactionFacts(rules, block, i);
    var sigOps;
    scriptsOk, next := true, tally;
    TallyStep(rules, u, block, height, i);
    ok, sigOps := CheckAmounts(rules, view, block, height, i, tally.sigOps, u);
    if !ok {
      return;
    }
    PassedAmounts(rules, u, block, height, i);
    PassedScripts(rules, u, block, height, i);
    var valueOut := SumOut(tx.vout, |tx.vout|);
    var valueIn := GetValueIn(view, tx);
    if !tx.IsCoinBase() && height >= rules.scriptHeight {
      scriptsOk := CheckScripts(rules, view, tx, P2SHActive(block));
    }
    UpdateInvariant(view.Contents(), tx, height, 0);
    var txUndo := UpdateCoins(view, tx, height);
    next := Tally(if tx.IsCoinBase() then tally.undo else tally.undo + [txUndo],
                  if tx.IsCoinBase() then tally.fees else tally.fees + (valueIn - valueOut),
                  tally.valueIn + valueIn, tally.valueOut + valueOut, sigOps);
  }

  method ConnectTransactions(rules: Rules, view: CoinsView, block: Block, height: int) returns (r: ConnectResult)
    requires view.Valid() && view.base != null && Tidy(view.Contents()) && height >= 1
    requires BlockOk(rules, block)
    modifies view.Repr
    ensures view.Valid() && Kept(view)
    ensures r.Accepted? <==> AllPass(rules, old(view.Contents()), block, height)
    ensures r.Accepted? ==>
              && view.Contents() == CoinsAfter(old(view.Contents()), block.vtx, height, |block.vtx|)
              && Tidy(view.Contents())
              && r.undo == BlockUndo(old(view.Contents()), block.vtx, height, |block.vtx|)
              && r.valueIn == BlockValueIn(old(view.Contents()), block.vtx, height, |block.vtx|)
              && r.valueOut == BlockValueOut(block.vtx, |block.vtx|)
  {
    hide Tidy, AmountsPass, ScriptsPass, AllPass, CoinbaseWithinLimit, BlockOk, CoinsAfter, TallyAt, BlockUndo, BlockFees,
         BlockValueIn, BlockValueOut;
    ghost var u := view.Contents();
    TallyEnds(rules, u, block, height);
    var ok, tally, scriptsOk := ConnectLoop(rules, view, block, height);
    if !ok {
      return Rejected;
    }
    if !CoinbaseWithinLimit(rules, block, tally.fees) || !scriptsOk {
      LimitsDecide(rules, u, block, height, tally.fees, scriptsOk);
      return Rejected;
    }
    PartsAllPass(rules, u, block, height);
    return Accepted(tally.undo, tally.valueIn, tally.valueOut);
  }

  /** The loop itself. The script checks go to the check queue, whose Wait gives scriptsOk. */
  method ConnectLoop(rules: Rules, view: CoinsView, block: Block, height: int) returns (ok: bool, tally: Tally, scriptsOk: bool)
    requires view.Valid() && view.base != null && Tidy(view.Contents()) && height >= 1
    requires BlockOk(rules, block)
    modifies view.Repr
    ensures view.Valid() && Kept(view)
    ensures !ok ==> !AllPass(rules, old(view.Contents()), block, height)
    ensures ok ==>
              && Tidy(view.Contents()) && view.Contents() == CoinsAfter(old(view.Contents()), block.vtx, height, |block.vtx|)
              && tally == TallyAt(rules, old(view.Contents()), block, height, |block.vtx|)
              && (forall j :: 0 <= j < |block.vtx| ==> AmountsPass(rules, old(view.Contents()), block, height, j))
              && (scriptsOk <==> forall j :: 0 <= j < |block.vtx| ==> ScriptsPass(rules, old(view.Contents()), block, height, j))
  {
    hide Tidy, AmountsPass, ScriptsPass, AllPass, BlockOk, CoinsAfter, TallyAt;
    ghost var u := view.Contents();
    TallyEnds(rules, u, block, height);
    tally := Tally([], 0, 0, 0, 0);
    scriptsOk := true;
    for i := 0 to |block.vtx|
      invariant view.Valid() && Kept(view) && Tidy(view.Contents())
      invariant view.Contents() == CoinsAfter(u, block.vtx, height, i)
      invariant tally == TallyAt(rules, u, block, height, i)
      invariant forall j :: 0 <= j < i ==> AmountsPass(rules, u, block, height, j)
      invariant scriptsOk <==> forall j :: 0 <= j < i ==> ScriptsPass(rules, u, block, height, j)
    {
      var passed;
      ok, tally, passed := ConnectOne(rules, view, block, height, i, tally, u);
      if !ok {
        if AllPass(rules, u, block, height) {
          AllPassParts(rules, u, block, height, i);
        }
        return;
      }
      scriptsOk := scriptsOk && passed;
    }
    ok := true;
  }

  lemma TransactionFacts(rules: Rules, block: Block, i: nat)
    requires BlockOk(rules, block) && i < |block.vtx|
    ensures DistinctInputs(block.vtx[i].vin) && block.vtx[i].vout != []
    ensures forall j :: 0 <= j < |block.vtx[i].vout| ==> !block.vtx[i].vout[j].IsNull()
    ensures block.vtx[i].IsCoinBase() <==> i == 0
  {
    assert TransactionOk(block.vtx[i]);
  }

  lemma PassedAmounts(rules: Rules, u: CoinMap, block: Block, height: int, i: nat)
    requires i < |block.vtx| && AmountsPass(rules, u, block, height, i)
    ensures block.vtx[i].IsCoinBase() || HaveInputs(CoinsAfter(u, block.vtx, height, i), block.vtx[i].vin)
  {
  }

  lemma PassedScripts(rules: Rules, u: CoinMap, block: Block, height: int, i: nat)
    requires i < |block.vtx|
    ensures block.vtx[i].IsCoinBase() || height < rules.scriptHeight ==> ScriptsPass(rules, u, block, height, i)
    ensures !block.vtx[i].IsCoinBase() && height >= rules.scriptHeight ==>
              (ScriptsPass(rules, u, block, height, i) <==>
               ScriptsOk(rules, CoinsAfter(u, block.vtx, height, i), block.vtx[i], P2SHActive(block)))
  {
  }

  lemma LimitsDecide(rules: Rules, u: CoinMap, block: Block, height: int, fees: int, scriptsOk: bool)
    requires block.vtx != [] && fees == BlockFees(u, block.vtx, height, |block.vtx|)
    requires scriptsOk <==> forall j :: 0 <= j < |block.vtx| ==> ScriptsPass(rules, u, block, height, j)
    requires !CoinbaseWithinLimit(rules, block, fees) || !scriptsOk
    ensures !AllPass(rules, u, block, height)
  {
    hide ScriptsPass, AmountsPass, CoinbaseWithinLimit, TxConnects, BlockFees;
    if AllPass(rules, u, block, height) {
      forall j | 0 <= j < |block.vtx| ensures ScriptsPass(rules, u, block, height, j) {
        AllPassParts(rules, u, block, height, j);
      }
    }
  }

  // ---------- the checks before the loop ----------

  method CheckBlock(rules: Rules, block: Block) returns (ok: bool)
    ensures ok <==> BlockOk(rules, block)
  {
    hide TransactionOk;
    if block.vtx == [] || !block.vtx[0].IsCoinBase() || !(rules.otherChecks)(block) {
      return false;
    }
    for i := 1 to |block.vtx|
      invariant forall j :: 1 <= j < i ==> !block.vtx[j].IsCoinBase()
    {
      if block.vtx[i].IsCoinBase() {
        return false;
      }
    }
    for i := 0 to |block.vtx|
      invariant forall j :: 0 <= j < i ==> TransactionOk(block.vtx[j])
    {
      var txOk := CheckTransaction(block.vtx[i]);
      if !txOk {
        return false;
      }
    }
    ok := TxIdsUnique(block.vtx);
  }

  method TxIdsUnique(vtx: seq<Tx>) returns (ok: bool)
    ensures ok <==> forall i, j :: 0 <= i < j < |vtx| ==> vtx[i].txid != vtx[j].txid
  {
    var unique: set<Hash> := {};
    for i := 0 to |vtx|
      invariant forall t :: t in unique <==> exists j :: 0 <= j < i && vtx[j].txid == t
      invariant |unique| <= i
      invariant |unique| == i <==> forall j, k :: 0 <= j < k < i ==> vtx[j].txid != vtx[k].txid
    {
      if vtx[i].txid in unique {
        assert unique + {vtx[i].txid} == unique;
      }
      unique := unique + {vtx[i].txid};
    }
    return |unique| == |vtx|;
  }

  /** The overwrite rule: no transaction of the block has unspent coins under its id. */
  method CheckNoOverwrite(view: CoinsView, vtx: seq<Tx>) returns (ok: bool)
    requires view.Valid()
    modifies view.Repr
    ensures view.Valid() && Untouched(view)
    ensures ok <==> NoOverwrite(view.Contents(), vtx)
  {
    for i := 0 to |vtx|
      invariant view.Valid() && Untouched(view)
      invariant forall j :: 0 <= j < i ==> !Live(view.Contents(), vtx[j].txid)
    {
      var found, coins := view.GetCoins(vtx[i].txid);
      if found && !coins.IsPruned() {
        return false;
      }
    }
    return true;
  }

  /** ConnectBlock up to the point where its results are recorded, for a block above genesis. */
  method ConnectChecked(rules: Rules, view: CoinsView, block: Block, height: int) returns (r: ConnectResult)
    requires view.Valid() && view.base != null && Tidy(view.Contents()) && height >= 1
    requires BlockOk(rules, block)
    modifies view.Repr
    ensures view.Valid() && Kept(view)
    ensures r.Accepted? <==> Connects(rules, old(view.Contents()), block, height)
    ensures r.Accepted? ==>
              && view.Contents() == CoinsAfter(old(view.Contents()), block.vtx, height, |block.vtx|)
              && Tidy(view.Contents())
              && r.undo == BlockUndo(old(view.Contents()), block.vtx, height, |block.vtx|)
              && r.valueIn == BlockValueIn(old(view.Contents()), block.vtx, height, |block.vtx|)
              && r.valueOut == BlockValueOut(block.vtx, |block.vtx|)
  {
    hide Tidy, BlockOk, NoOverwrite, TxConnects, CoinbaseWithinLimit, CoinsAfter, BlockUndo, BlockValueIn, BlockValueOut;
    if !(rules.bip30Exempt)(height, block.hash) {
      var free := CheckNoOverwrite(view, block.vtx);
      if !free {
        return Rejected;
      }
    }
    r := ConnectTransactions(rules, view, block, height);
  }

  // ---------- disconnecting ----------

  /** Restores the inputs of one transaction, last to first. */
  method RestoreInputs(view: CoinsView, vin: seq<TxIn>, undo: seq<TxInUndo>) returns (clean: bool)
    requires view.Valid() && view.base != null && |vin| == |undo|
    modifies view.Repr
    ensures view.Valid() && Kept(view)
    ensures view.Contents() == RestoreFirst(old(view.Contents()), vin, undo, |vin|)
    ensures clean <==> RestoreFirstClean(old(view.Contents()), vin, undo, |vin|)
  {
    hide Found, RestoreRecord, RestoreClean;
    ghost var v := view.Contents();
    clean := true;
    var j := |vin|;
    while j > 0
      invariant 0 <= j <= |vin| && view.Valid() && Kept(view)
      invariant RestoreFirst(view.Contents(), vin, undo, j) == RestoreFirst(v, vin, undo, |vin|)
      invariant (clean && RestoreFirstClean(view.Contents(), vin, undo, j)) == RestoreFirstClean(v, vin, undo, |vin|)
    {
      j := j - 1;
      var o := vin[j].prevout;
      var found, coins := view.GetCoins(o.hash);      // not found leaves an empty record
      var restored, ok := RestoreInput(coins, o.n, undo[j]);
      clean := clean && ok;
      view.SetCoins(o.hash, restored);
    }
  }

  method RestoreInput(found: CoinRecord, n: nat, undo: TxInUndo) returns (coins: CoinRecord, clean: bool)
    ensures coins == RestoreRecord(found, n, undo)
    ensures clean <==> RestoreClean(found, n, undo)
  {
    coins, clean := found, true;
    if undo.height != 0 {
      if !coins.IsPruned() {
        clean := false;
      }
      coins := CoinRecord(undo.coinBase, [], undo.height, undo.version);
    } else if coins.IsPruned() {
      clean := false;
    }
    if coins.IsAvailable(n) {
      clean := false;
    }
    if |coins.vout| < n + 1 {
      coins := coins.(vout := Grow(coins.vout, n + 1));
    }
    coins := coins.(vout := coins.vout[n := undo.out]);
  }

  /** Removes the outputs of one transaction. */
  method RemoveOutputs(view: CoinsView, tx: Tx, height: int) returns (clean: bool)
    requires view.Valid() && view.base != null
    modifies view.Repr
    ensures view.Valid() && Kept(view)
    ensures view.Contents() == old(view.Contents())[tx.txid := EMPTY_RECORD]
    ensures clean <==> OutputsClean(old(view.Contents()), tx, height)
  {
    clean := true;
    var found, outs := view.GetCoins(tx.txid);
    if !found {
      clean := false;
      view.SetCoins(tx.txid, EMPTY_RECORD);
    }
    if tx.version < 0 {
      outs := outs.(version := tx.version);
    }
    if outs != NewRecord(tx, height) {
      clean := false;
    }
    view.SetCoins(tx.txid, EMPTY_RECORD);
  }

  /** The body of DisconnectBlock between reading the undo data and moving the tip. */
  method DisconnectTransactions(view: CoinsView, vtx: seq<Tx>, undo: seq<seq<TxInUndo>>, height: int)
    returns (ok: bool, clean: bool)
    requires view.Valid() && view.base != null
    modifies view.Repr
    ensures view.Valid() && Kept(view)
    ensures var r := DisconnectBlock(old(view.Contents()), vtx, undo, height);
            (ok <==> r.Disconnected?) && (ok ==> r.coins == view.Contents() && r.clean == clean)
  {
    hide RestoreFirst, RestoreFirstClean, OutputsClean;
    clean := true;
    if |undo| + 1 != |vtx| {
      return false, clean;
    }
    ghost var v := view.Contents();
    ghost var all := DisconnectFirst(v, vtx, undo, height, |vtx|);
    var i := |vtx|;
    while i > 0
      invariant 0 <= i <= |vtx| && view.Valid() && Kept(view)
      invariant var rest := DisconnectFirst(view.Contents(), vtx, undo, height, i);
                if rest.Inconsistent? then all.Inconsistent?
                else all == Disconnected(rest.coins, clean && rest.clean)
    {
      i := i - 1;
      var tx := vtx[i];
      var removed := RemoveOutputs(view, tx, height);
      clean := clean && removed;
      if i > 0 {
        if |undo[i - 1]| != |tx.vin| {
          return false, clean;
        }
        var restored := RestoreInputs(view, tx.vin, undo[i - 1]);
        clean := clean && restored;
      }
    }
    ok := true;
  }
}
