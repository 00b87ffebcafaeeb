/** The finished block template: in which order its transactions depend on each other, that no
    output is spent twice, which transactions are left behind, and that the block connects.
    (src/main.cpp, CreateNewBlock) */
module BlockTemplate {
  import opened Basics
  import opened Coins
  import opened Blocks
  import opened Validation
  import opened CreateBlock

  const MAX_BLOCK_SIZE_GEN := 500_000

  /** vtx[0] is the coinbase; its entry in vTxFees is minus the sum of the others. */
  datatype Template = Template(vtx: seq<Tx>, vTxFees: seq<int>, vTxSigOps: seq<int>)

  function ClampSize(arg: nat, early: bool): (size: nat)
    ensures size <= MAX_BLOCK_SIZE - 1000
  {
    var size := if arg < MAX_BLOCK_SIZE - 1000 then arg else MAX_BLOCK_SIZE - 1000;
    var sane := if size < 1000 then 1000 else size;
    if early && sane > MAX_BLOCK_SIZE_GEN then MAX_BLOCK_SIZE_GEN else sane
  }

  /** A parent of the transaction is neither in the database nor in the block. */
  ghost predicate MissesParent(tip: CoinMap, tx: Tx, txs: seq<Tx>) {
    exists j :: 0 <= j < |tx.vin| && tx.vin[j].prevout.hash !in tip
                && forall i :: 0 <= i < |txs| ==> txs[i].txid != tx.vin[j].prevout.hash
  }

  /** Why a pool transaction is not in the block: it misses a parent, or it was refused on top of
      some of the transactions that are. */
  ghost predicate LeftBehind(rules: Rules, tip: CoinMap, pool: seq<Tx>, isFinal: Tx -> bool, height: int, tx: Tx, txs: seq<Tx>, policy: Policy) {
    MissesParent(tip, tx, txs) || TurnedDown(rules, tip, pool, isFinal, height, txs, tx, policy)
  }

  lemma WaitingMissesParent(tip: CoinMap, pool: seq<Tx>, isFinal: Tx -> bool, w: Work, txs: seq<Tx>, taken: set<Hash>, included: set<Hash>, n: nat)
    requires WorkOk(tip, pool, |pool|, isFinal, w, taken, included) && w.heap == []
    requires Selected(pool, isFinal, txs, taken, included) && n < |pool| && Eligible(pool[n], isFinal)
    requires pool[n].txid !in taken
    ensures MissesParent(tip, pool[n], txs)
  {
    hide Linked, Placed, FromPool, Missing;
    var tx := pool[n];
    assert Somewhere(tx, w.orphans, w.heap, taken);
    var k :| 0 <= k < |w.orphans| && w.orphans[k].tx == tx && w.orphans[k].dependsOn != {};
    if forall h :: h !in w.orphans[k].dependsOn {
      EmptySet(w.orphans[k].dependsOn);
    }
    var h :| h in w.orphans[k].dependsOn;
    assert WaitsRight(tip, w.orphans[k], included);
    MissingIs(tip, tx.vin, |tx.vin|, h);
    var j :| 0 <= j < |tx.vin| && tx.vin[j].prevout.hash == h;
  }

  lemma IncludedIsSelected(pool: seq<Tx>, isFinal: Tx -> bool, txs: seq<Tx>, taken: set<Hash>, included: set<Hash>, n: nat)
    requires PoolOk(pool) && Selected(pool, isFinal, txs, taken, included) && n < |pool| && pool[n].txid in included
    ensures pool[n] in txs
  {
    hide TransactionOk;
    var i :| 0 <= i < |txs| && txs[i].txid == pool[n].txid;
    assert Among(pool, |pool|, txs[i]);
  }

  lemma NobodyForgotten(rules: Rules, tip: CoinMap, pool: seq<Tx>, isFinal: Tx -> bool, height: int, w: Work, txs: seq<Tx>, taken: set<Hash>,
                        included: set<Hash>, policy: Policy, n: nat)
    requires PoolOk(pool) && WorkOk(tip, pool, |pool|, isFinal, w, taken, included) && w.heap == []
    requires Selected(pool, isFinal, txs, taken, included) && Judged(rules, tip, pool, isFinal, height, txs, taken, included, policy)
    requires n < |pool| && Eligible(pool[n], isFinal)
    ensures pool[n] in txs || LeftBehind(rules, tip, pool, isFinal, height, pool[n], txs, policy)
  {
    hide PoolOk, WorkOk, Selected, MissesParent, TurnedDown, Eligible;
    if pool[n].txid in included {
      IncludedIsSelected(pool, isFinal, txs, taken, included, n);
    } else if pool[n].txid !in taken {
      WaitingMissesParent(tip, pool, isFinal, w, txs, taken, included, n);
    }
  }

  /** What a finished template is: a coinbase for the block value and the collected fees, then
      distinct eligible transactions of the pool, each entry and the totals accounted for. */
  ghost predicate Assembled(rules: Rules, tip: CoinMap, pool: seq<Tx>, isFinal: Tx -> bool, height: int, bits: nat,
                            coinbaseOf: int -> Tx, maxSize: nat, t: Template, p: Progress)
  {
    && t.vtx == [coinbaseOf(BlockValue(rules, bits, Sum(p.fees)))] + p.txs
    && t.vTxFees == [-Sum(p.fees)] + p.fees && t.vTxSigOps == [t.vtx[0].sigOps] + p.sigOps
    && |t.vtx| == |t.vTxFees| == |t.vTxSigOps| > 0 && t.vTxFees[0] == -Sum(t.vTxFees[1..])
    && (forall i, j :: 1 <= i < j < |t.vtx| ==> t.vtx[i].txid != t.vtx[j].txid)
    && (forall i :: 1 <= i < |t.vtx| ==> Among(pool, |pool|, t.vtx[i]) && Eligible(t.vtx[i], isFinal))
    && Accounted(rules, tip, height, p) && WithinLimits(p, maxSize)
  }

  /** Assembles a block on top of tip. coinbaseOf gives the coinbase transaction for an amount. */
  method CreateNewBlock(rules: Rules, tip: CoinMap, pool: seq<Tx>, isFinal: Tx -> bool, height: int, bits: nat,
                        coinbaseOf: int -> Tx, maxSizeArg: nat, early: bool, prioritySizeArg: nat, minSizeArg: nat,
                        lowFee: Tx -> bool, lowPriority: Tx -> bool)
    returns (t: Template, ghost p: Progress)
    requires PoolOk(pool) && Closed(tip, pool)
    ensures Assembled(rules, tip, pool, isFinal, height, bits, coinbaseOf, ClampSize(maxSizeArg, early), t, p)
    ensures |t.vtx| == |t.vTxFees| == |t.vTxSigOps| == |p.txs| + 1 && t.vTxFees[0] == -Sum(t.vTxFees[1..])
    ensures var max := ClampSize(maxSizeArg, early);
            var policy := Policy(max, Min(max, minSizeArg), Min(max, prioritySizeArg), lowFee, lowPriority);
            forall n :: 0 <= n < |pool| && Eligible(pool[n], isFinal) ==>
              pool[n] in p.txs || LeftBehind(rules, tip, pool, isFinal, height, pool[n], p.txs, policy)
  {
    hide WorkOk, Accounted, LeftBehind, Judged, Among, Eligible, PoolOk, Closed;
    var nBlockMaxSize := ClampSize(maxSizeArg, early);
    var nBlockPrioritySize := Min(nBlockMaxSize, prioritySizeArg);
    var nBlockMinSize := Min(nBlockMaxSize, minSizeArg);
    var policy := Policy(nBlockMaxSize, nBlockMinSize, nBlockPrioritySize, lowFee, lowPriority);
    var work := Collect(tip, pool, isFinal);
    var q;
    ghost var w, taken, included;
    q, w, taken, included := Select(rules, tip, pool, isFinal, height, work, policy);
    p := q;
    forall n | 0 <= n < |pool| && Eligible(pool[n], isFinal)
      ensures pool[n] in p.txs || LeftBehind(rules, tip, pool, isFinal, height, pool[n], p.txs, policy)
    {
      NobodyForgotten(rules, tip, pool, isFinal, height, w, p.txs, taken, included, policy, n);
    }
    Totals(rules, tip, height, q);
    var vTxFees: seq<int>, vTxSigOps: seq<int> := [-1] + q.fees, [-1] + q.sigOps;
    var coinbase := coinbaseOf(BlockValue(rules, bits, q.nFees));
    vTxFees := vTxFees[0 := -q.nFees];
    vTxSigOps := vTxSigOps[0 := coinbase.sigOps];
    t := Template([coinbase] + q.txs, vTxFees, vTxSigOps);
    assert t.vTxFees[1..] == q.fees;
  }

  lemma Totals(rules: Rules, tip: CoinMap, height: int, p: Progress)
    requires Accounted(rules, tip, height, p)
    ensures p.nFees == Sum(p.fees) && |p.fees| == |p.sigOps| == |p.txs|
  {
    hide EntryOk, CoinsAfter, SumSizes, SumSigOps;
  }

  // ---------- order and double spends ----------

  /** What the transactions must satisfy one by one. */
  ghost predicate AllFit(tip: CoinMap, txs: seq<Tx>, height: int) {
    && Tidy(tip) && height >= 1
    && (forall i :: 0 <= i < |txs| ==> TransactionOk(txs[i]) && !txs[i].IsCoinBase())
    && (forall i :: 0 <= i < |txs| ==> InputsOk(CoinsAfter(tip, txs, height, i), txs[i], height))
  }

  /** The transactions of a template do. */
  lemma TemplateFits(rules: Rules, tip: CoinMap, pool: seq<Tx>, isFinal: Tx -> bool, height: int, p: Progress)
    requires PoolOk(pool) && Tidy(tip) && height >= 1 && Accounted(rules, tip, height, p)
    requires forall i :: 0 <= i < |p.txs| ==> Among(pool, |pool|, p.txs[i]) && Eligible(p.txs[i], isFinal)
    ensures AllFit(tip, p.txs, height)
  {
    hide Tidy, TransactionOk, InputsOk, CoinsAfter, Accounted;
    forall i | 0 <= i < |p.txs|
      ensures TransactionOk(p.txs[i]) && !p.txs[i].IsCoinBase() && InputsOk(CoinsAfter(tip, p.txs, height, i), p.txs[i], height)
    {
      EntryFacts(rules, tip, height, p, i);
      EntryParts(rules, tip, p.txs, height, i, p.fees[i], p.sigOps[i]);
      assert Among(pool, |pool|, p.txs[i]);
    }
  }

  lemma OneFits(tip: CoinMap, txs: seq<Tx>, height: int, i: nat)
    requires AllFit(tip, txs, height) && i < |txs|
    ensures HaveInputs(CoinsAfter(tip, txs, height, i), txs[i].vin) && DistinctInputs(txs[i].vin) && !txs[i].IsCoinBase()
    ensures txs[i].vout != [] && forall j :: 0 <= j < |txs[i].vout| ==> !txs[i].vout[j].IsNull()
  {
    hide CoinsAfter, HaveInputs, DistinctInputs, Tidy;
    assert InputsOk(CoinsAfter(tip, txs, height, i), txs[i], height);
  }

  lemma {:induction false} StaysTidy(tip: CoinMap, txs: seq<Tx>, height: int, k: nat)
    requires AllFit(tip, txs, height) && k <= |txs|
    ensures Tidy(CoinsAfter(tip, txs, height, k))
  {
    hide Tidy, HaveInputs, DistinctInputs, AfterTx, InputsOk, TransactionOk;
    if k > 0 {
      StaysTidy(tip, txs, height, k - 1);
      OneFits(tip, txs, height, k - 1);
      UpdateInvariant(CoinsAfter(tip, txs, height, k - 1), txs[k - 1], height, 0);
    }
  }

  /** What one transaction leaves spendable: its own outputs, and others it does not spend. */
  lemma SpendableAfter(u: CoinMap, tx: Tx, height: int, o: OutPoint)
    requires Tidy(u) && HaveInputs(u, tx.vin) && DistinctInputs(tx.vin) && !tx.IsCoinBase()
    ensures CanSpend(AfterTx(u, tx, height), o) && o.hash != tx.txid ==> CanSpend(u, o) && NotAmong(tx.vin, |tx.vin|, o)
  {
    hide SpendFirst;
    OthersStaySpendable(u, tx.vin, |tx.vin|, o);
  }

  /** Every transaction comes after those it depends on. */
  lemma {:induction false} DependenciesFirst(tip: CoinMap, txs: seq<Tx>, height: int, i: nat, o: OutPoint)
    requires AllFit(tip, txs, height) && i <= |txs| && CanSpend(CoinsAfter(tip, txs, height, i), o)
    ensures CanSpend(tip, o) || exists k :: 0 <= k < i && txs[k].txid == o.hash
  {
    hide CanSpend, AfterTx, InputsOk, TransactionOk, Tidy, HaveInputs, DistinctInputs;
    if i > 0 && txs[i - 1].txid != o.hash {
      OneFits(tip, txs, height, i - 1);
      StaysTidy(tip, txs, height, i - 1);
      SpendableAfter(CoinsAfter(tip, txs, height, i - 1), txs[i - 1], height, o);
      DependenciesFirst(tip, txs, height, i - 1, o);
    }
  }

  /** An output that is spendable after i transactions was not spent by the one at j, unless
      its transaction was put into the block after that. */
  lemma {:induction false} NotSpentBefore(tip: CoinMap, txs: seq<Tx>, height: int, j: nat, i: nat, o: OutPoint)
    requires AllFit(tip, txs, height) && j < i <= |txs| && CanSpend(CoinsAfter(tip, txs, height, i), o)
    requires forall k :: j <= k < i ==> txs[k].txid != o.hash
    ensures NotAmong(txs[j].vin, |txs[j].vin|, o)
  {
    hide CanSpend, AfterTx, InputsOk, TransactionOk, Tidy, HaveInputs, DistinctInputs, NotAmong;
    OneFits(tip, txs, height, i - 1);
    StaysTidy(tip, txs, height, i - 1);
    SpendableAfter(CoinsAfter(tip, txs, height, i - 1), txs[i - 1], height, o);
    if j < i - 1 {
      NotSpentBefore(tip, txs, height, j, i - 1, o);
    }
  }

  /** No output is spent twice, given that no transaction of the block is already in the
      database or in the block when one spends from it. */
  lemma NoDoubleSpend(tip: CoinMap, txs: seq<Tx>, height: int, j: nat, i: nat, a: nat, b: nat)
    requires AllFit(tip, txs, height) && j < i < |txs| && a < |txs[j].vin| && b < |txs[i].vin|
    requires forall k, l :: 0 <= k < l < |txs| ==> txs[k].txid != txs[l].txid
    requires forall k :: 0 <= k < |txs| ==> !Live(tip, txs[k].txid)
    ensures txs[j].vin[a].prevout != txs[i].vin[b].prevout
  {
    hide CanSpend, AfterTx, InputsOk, TransactionOk, Tidy, DistinctInputs;
    var o, o1 := txs[i].vin[b].prevout, txs[j].vin[a].prevout;
    OneFits(tip, txs, height, i);
    OneFits(tip, txs, height, j);
    if o == o1 {
      // the first spender already had it, so its transaction is older than the first spender
      DependenciesFirst(tip, txs, height, j, o);
      SpendableIsLive(tip, o);
      NotSpentBefore(tip, txs, height, j, i, o);
    }
  }

  lemma SpendableIsLive(u: CoinMap, o: OutPoint)
    ensures CanSpend(u, o) ==> Live(u, o.hash)
  {
  }

  // ---------- the block connects ----------

  /** An extra record that no input refers to makes no difference to spending. */
  lemma {:induction false} ExtraSpend(u: CoinMap, cb: Hash, r: CoinRecord, vin: seq<TxIn>, k: nat)
    requires k <= |vin| && forall i :: 0 <= i < |vin| ==> vin[i].prevout.hash != cb
    ensures SpendFirst(u[cb := r], vin, k) == SpendFirst(u, vin, k)[cb := r]
  {
    if k > 0 {
      ExtraSpend(u, cb, r, vin, k - 1);
      ExtraSpendOne(SpendFirst(u, vin, k - 1), cb, r, vin[k - 1].prevout);
    }
  }

  lemma ExtraSpendOne(u: CoinMap, cb: Hash, r: CoinRecord, o: OutPoint)
    requires o.hash != cb
    ensures CanSpend(u[cb := r], o) == CanSpend(u, o)
    ensures SpendOne(u[cb := r], o) == SpendOne(u, o)[cb := r]
    ensures InputValue(u[cb := r], o) == InputValue(u, o) && SpentScript(u[cb := r], o) == SpentScript(u, o)
  {
  }

  lemma ExtraAfter(u: CoinMap, cb: Hash, r: CoinRecord, tx: Tx, height: int)
    requires !tx.IsCoinBase() && tx.txid != cb && forall i :: 0 <= i < |tx.vin| ==> tx.vin[i].prevout.hash != cb
    ensures AfterTx(u[cb := r], tx, height) == AfterTx(u, tx, height)[cb := r]
  {
    hide SpendFirst;
    ExtraSpend(u, cb, r, tx.vin, |tx.vin|);
  }

  lemma {:induction false} ExtraSums(rules: Rules, u: CoinMap, cb: Hash, r: CoinRecord, vin: seq<TxIn>, k: nat)
    requires k <= |vin| && forall i :: 0 <= i < |vin| ==> vin[i].prevout.hash != cb
    ensures ValueIn(u[cb := r], vin, k) == ValueIn(u, vin, k)
    ensures P2SHSigOps(rules, u[cb := r], vin, k) == P2SHSigOps(rules, u, vin, k)
  {
    hide InputValue, SpentScript;
    if k > 0 {
      ExtraSums(rules, u, cb, r, vin, k - 1);
      ExtraSpendOne(u, cb, r, vin[k - 1].prevout);
    }
  }

  lemma ExtraChecks(rules: Rules, u: CoinMap, cb: Hash, r: CoinRecord, tx: Tx, height: int)
    requires forall i :: 0 <= i < |tx.vin| ==> tx.vin[i].prevout.hash != cb
    requires InputsOk(u, tx, height) && ScriptsOk(rules, u, tx, true)
    ensures InputsOk(u[cb := r], tx, height) && ScriptsOk(rules, u[cb := r], tx, true)
    ensures TxFee(u[cb := r], tx) == TxFee(u, tx) && TxSigOps(rules, u[cb := r], tx) == TxSigOps(rules, u, tx)
  {
    hide ValueIn, P2SHSigOps, SumOut, CanSpend, InputValue, SpentScript, MinFee;
    ExtraSums(rules, u, cb, r, tx.vin, |tx.vin|);
    forall i | 0 <= i < |tx.vin|
      ensures CanSpend(u[cb := r], tx.vin[i].prevout) && InputValue(u[cb := r], tx.vin[i].prevout) == InputValue(u, tx.vin[i].prevout)
      ensures SpentScript(u[cb := r], tx.vin[i].prevout) == SpentScript(u, tx.vin[i].prevout)
    {
      ExtraSpendOne(u, cb, r, tx.vin[i].prevout);
    }
    forall i | 0 <= i < |tx.vin| ensures Matured(u[cb := r], tx.vin[i].prevout, height) {
      assert Matured(u, tx.vin[i].prevout, height);
    }
  }

  /** The coinbase is new: nobody spends from it and nobody has its id. */
  ghost predicate FreshCoinbase(cb: Tx, txs: seq<Tx>) {
    && cb.IsCoinBase()
    && forall i :: 0 <= i < |txs| ==> !txs[i].IsCoinBase() && txs[i].txid != cb.txid && SpendsNot(txs[i], cb.txid)
  }

  ghost predicate SpendsNot(tx: Tx, h: Hash) {
    forall j :: 0 <= j < |tx.vin| ==> tx.vin[j].prevout.hash != h
  }

  /** Connecting the coinbase first only adds its record. */
  lemma {:induction false} WithCoinbase(tip: CoinMap, cb: Tx, txs: seq<Tx>, height: int, k: nat)
    requires FreshCoinbase(cb, txs) && k <= |txs|
    ensures CoinsAfter(tip, [cb] + txs, height, k + 1) == CoinsAfter(tip, txs, height, k)[cb.txid := NewRecord(cb, height)]
  {
    hide AfterTx;
    var vtx := [cb] + txs;
    if k == 0 {
      CoinbaseAfter(tip, cb, height);
      assert CoinsAfter(tip, vtx, height, 0) == tip;
    } else {
      WithCoinbase(tip, cb, txs, height, k - 1);
      assert SpendsNot(txs[k - 1], cb.txid);
      ExtraAfter(CoinsAfter(tip, txs, height, k - 1), cb.txid, NewRecord(cb, height), txs[k - 1], height);
      assert vtx[k] == txs[k - 1];
    }
  }

  lemma CoinbaseAfter(u: CoinMap, cb: Tx, height: int)
    requires cb.IsCoinBase()
    ensures AfterTx(u, cb, height) == u[cb.txid := NewRecord(cb, height)]
  {
  }

  /** The running totals of ConnectBlock are those kept while assembling. */
  lemma {:induction false} SameTotals(rules: Rules, tip: CoinMap, block: Block, cb: Tx, p: Progress, height: int, k: nat)
    requires block.vtx == [cb] + p.txs && FreshCoinbase(cb, p.txs) && P2SHActive(block)
    requires Accounted(rules, tip, height, p) && k <= |p.txs|
    ensures SigOps(rules, tip, block, height, k + 1) == cb.sigOps + SumSigOps(rules, tip, p.txs, height, k)
    ensures BlockFees(tip, block.vtx, height, k + 1) == Sum(p.fees[..k])
  {
    hide CoinsAfter, InputsOk, ScriptsOk, ValueIn, SumOut, P2SHSigOps, Accounted, FreshCoinbase;
    if k == 0 {
      CoinbaseTotals(rules, tip, block, height, cb, p.txs);
    } else {
      SameTotals(rules, tip, block, cb, p, height, k - 1);
      EntryFacts(rules, tip, height, p, k - 1);
      FreshAt(cb, p.txs, k - 1);
      WithCoinbase(tip, cb, p.txs, height, k - 1);
      ExtraChecks(rules, CoinsAfter(tip, p.txs, height, k - 1), cb.txid, NewRecord(cb, height), p.txs[k - 1], height);
      assert block.vtx[k] == p.txs[k - 1];
      assert p.fees[..k][..k - 1] == p.fees[..k - 1];
    }
  }

  lemma CoinbaseTotals(rules: Rules, tip: CoinMap, block: Block, height: int, cb: Tx, txs: seq<Tx>)
    requires block.vtx == [cb] + txs && FreshCoinbase(cb, txs)
    ensures SigOps(rules, tip, block, height, 1) == cb.sigOps && BlockFees(tip, block.vtx, height, 1) == 0
  {
    assert SigOps(rules, tip, block, height, 0) == 0 && BlockFees(tip, block.vtx, height, 0) == 0;
  }

  lemma EntryFacts(rules: Rules, tip: CoinMap, height: int, p: Progress, i: nat)
    requires Accounted(rules, tip, height, p) && i < |p.txs|
    ensures |p.fees| == |p.txs| == |p.sigOps|
    ensures EntryOk(rules, tip, p.txs, height, i, p.fees[i], p.sigOps[i])
  {
    hide EntryOk, CoinsAfter, SumSizes, SumSigOps, Sum;
  }

  lemma FreshAt(cb: Tx, txs: seq<Tx>, i: nat)
    requires FreshCoinbase(cb, txs) && i < |txs|
    ensures !txs[i].IsCoinBase() && txs[i].txid != cb.txid && forall j :: 0 <= j < |txs[i].vin| ==> txs[i].vin[j].prevout.hash != cb.txid
  {
    assert SpendsNot(txs[i], cb.txid);
  }

  lemma {:induction false} SumSigOpsGrow(rules: Rules, tip: CoinMap, txs: seq<Tx>, height: int, i: nat, k: nat)
    requires i <= k <= |txs|
    ensures SumSigOps(rules, tip, txs, height, i) <= SumSigOps(rules, tip, txs, height, k)
    decreases k
  {
    hide CoinsAfter, TxSigOps;
    if i < k {
      SumSigOpsGrow(rules, tip, txs, height, i, k - 1);
    }
  }

  lemma TransactionConnects(rules: Rules, tip: CoinMap, block: Block, cb: Tx, p: Progress, height: int, max: nat, i: nat)
    requires block.vtx == [cb] + p.txs && FreshCoinbase(cb, p.txs) && P2SHActive(block) && i < |block.vtx|
    requires Accounted(rules, tip, height, p) && WithinLimits(p, max) && cb.sigOps <= SIGOPS_OVERHEAD
    ensures TxConnects(rules, tip, block, height, i)
  {
    hide CoinsAfter, InputsOk, ScriptsOk, SigOps, BlockFees, SumSigOps, FreshCoinbase, EntryOk, Sum, SumSizes, TxFee, TxSigOps;
    SameTotals(rules, tip, block, cb, p, height, i);
    SumSigOpsGrow(rules, tip, p.txs, height, i, |p.txs|);
    if i == 0 {
      CoinbaseIsOne(cb, p.txs);
    } else {
      EntryFacts(rules, tip, height, p, i - 1);
      EntryParts(rules, tip, p.txs, height, i - 1, p.fees[i - 1], p.sigOps[i - 1]);
      FreshAt(cb, p.txs, i - 1);
      WithCoinbase(tip, cb, p.txs, height, i - 1);
      ExtraChecks(rules, CoinsAfter(tip, p.txs, height, i - 1), cb.txid, NewRecord(cb, height), p.txs[i - 1], height);
      assert block.vtx[i] == p.txs[i - 1];
    }
  }

  lemma CoinbaseIsOne(cb: Tx, txs: seq<Tx>)
    requires FreshCoinbase(cb, txs)
    ensures cb.IsCoinBase()
  {
  }

  lemma EntryParts(rules: Rules, tip: CoinMap, txs: seq<Tx>, height: int, i: nat, fee: int, sigOps: int)
    requires i < |txs| && EntryOk(rules, tip, txs, height, i, fee, sigOps)
    ensures InputsOk(CoinsAfter(tip, txs, height, i), txs[i], height) && ScriptsOk(rules, CoinsAfter(tip, txs, height, i), txs[i], true)
  {
  }

  /** ConnectBlock accepts what CreateNewBlock assembled, as CreateNewBlock itself insists: with
      a small coinbase that passes CheckTransaction and pays exactly the block value, all checks
      of the single transactions, of their ids and of the total amount hold. */
  lemma TemplateConnects(rules: Rules, tip: CoinMap, pool: seq<Tx>, isFinal: Tx -> bool, height: int,
                         coinbaseOf: int -> Tx, maxSize: nat, t: Template, p: Progress, block: Block)
    requires PoolOk(pool) && Assembled(rules, tip, pool, isFinal, height, block.bits, coinbaseOf, maxSize, t, p)
    requires block.vtx == t.vtx && (rules.otherChecks)(block) && P2SHActive(block)
    requires var cb := t.vtx[0]; TransactionOk(cb) && FreshCoinbase(cb, p.txs) && cb.sigOps <= SIGOPS_OVERHEAD && cb.size < 1000
    requires SumOut(t.vtx[0].vout, |t.vtx[0].vout|) == BlockValue(rules, block.bits, Sum(p.fees))
    requires NoOverwrite(tip, block.vtx)
    ensures Connects(rules, tip, block, height)
  {
    hide BlockOk, NoOverwrite, TxConnects, BlockFees, FreshCoinbase, Accounted, SumOut, BlockValue, PoolOk, Among, Eligible, TransactionOk;
    var cb := t.vtx[0];
    TemplateOk(rules, pool, isFinal, cb, p.txs, block);
    forall i | 0 <= i < |block.vtx| ensures TxConnects(rules, tip, block, height, i) {
      TransactionConnects(rules, tip, block, cb, p, height, maxSize, i);
    }
    SameTotals(rules, tip, block, cb, p, height, |p.txs|);
    Totals(rules, tip, height, p);
    assert p.fees[..|p.txs|] == p.fees;
    SmallFee(cb);
  }

  /** The context-free checks, from what the pool and the selection ensure. */
  lemma TemplateOk(rules: Rules, pool: seq<Tx>, isFinal: Tx -> bool, cb: Tx, txs: seq<Tx>, block: Block)
    requires PoolOk(pool) && block.vtx == [cb] + txs && (rules.otherChecks)(block)
    requires TransactionOk(cb) && FreshCoinbase(cb, txs)
    requires forall i, j :: 1 <= i < j < |block.vtx| ==> block.vtx[i].txid != block.vtx[j].txid
    requires forall i :: 1 <= i < |block.vtx| ==> Among(pool, |pool|, block.vtx[i]) && Eligible(block.vtx[i], isFinal)
    ensures BlockOk(rules, block)
  {
    hide TransactionOk, SpendsNot;
    forall i | 1 <= i < |block.vtx|
      ensures TransactionOk(block.vtx[i]) && !block.vtx[i].IsCoinBase() && block.vtx[i].txid != cb.txid
    {
      assert Among(pool, |pool|, block.vtx[i]);
      assert block.vtx[i] == txs[i - 1];
    }
  }

  lemma SmallFee(cb: Tx)
    requires cb.size < 1000
    ensures MinFee(cb) == MIN_TX_FEE
  {
  }
}
