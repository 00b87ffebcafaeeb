/** The rules a block must meet to be connected, and what they mean for the money supply.
    Script evaluation, signature-operation counting of scripts and the size, timing and
    Merkle checks of CheckBlock are parameters of the rules.
    (src/main.cpp, CheckTransaction / GetMinFee / CheckInputs / CheckBlock / ConnectBlock) */
module Validation {
  import opened Basics
  import opened Coins
  import opened Blocks
  import Target

  const MIN_TX_FEE := 1_000_000                 // CENT
  const MIN_TXOUT_AMOUNT := MIN_TX_FEE
  const COINBASE_MATURITY := 3000
  const MAX_BLOCK_SIZE := 1_000_000
  const MAX_BLOCK_SIGOPS := 20_000
  const BIP16_SWITCH_TIME := 1_333_238_400

  datatype Rules = Rules(
    minLen: nat,                                     // minimum target length of the network
    otherChecks: Block -> bool,                      // size, lock-limit, signature-count and Merkle-root checks of CheckBlock
    p2shSigOps: (Script, Script) -> nat,             // spent script, spending script
    verifyScript: (Tx, nat, Script, bool) -> bool,   // transaction, input, spent script, P2SH flag
    scriptHeight: int,                               // scripts are verified from this height on
    bip30Exempt: (int, Hash) -> bool                 // the two block hashes exempt from the overwrite rule
  )

  predicate MoneyRange(v: int) {
    0 <= v <= MAX_MONEY
  }

  // ---------- transactions on their own ----------

  function SumOut(vout: seq<TxOut>, k: nat): int
    requires k <= |vout|
  {
    if k == 0 then 0 else SumOut(vout, k - 1) + vout[k - 1].value
  }

  predicate OutputsInRange(vout: seq<TxOut>) {
    forall i :: 0 <= i < |vout| ==> MIN_TXOUT_AMOUNT <= vout[i].value <= MAX_MONEY
  }

  predicate TransactionOk(tx: Tx) {
    && tx.vin != [] && tx.vout != [] && tx.size <= MAX_BLOCK_SIZE
    && OutputsInRange(tx.vout) && SumOut(tx.vout, |tx.vout|) <= MAX_MONEY
    && DistinctInputs(tx.vin)
    && if tx.IsCoinBase() then 2 <= |tx.vin[0].scriptSig| <= 100
       else forall i :: 0 <= i < |tx.vin| ==> !tx.vin[i].prevout.IsNull()
  }

  lemma {:induction false} SumOutMonotone(vout: seq<TxOut>, j: nat, k: nat)
    requires j <= k <= |vout| && forall i :: 0 <= i < |vout| ==> vout[i].value >= 0
    ensures SumOut(vout, j) <= SumOut(vout, k)
  {
    if j < k {
      SumOutMonotone(vout, j, k - 1);
    }
  }

  method CheckTransaction(tx: Tx) returns (ok: bool)
    ensures ok <==> TransactionOk(tx)
  {
    if tx.vin == [] || tx.vout == [] || tx.size > MAX_BLOCK_SIZE {
      return false;
    }
    var total := 0;
    for i := 0 to |tx.vout|
      invariant forall j :: 0 <= j < i ==> MIN_TXOUT_AMOUNT <= tx.vout[j].value <= MAX_MONEY
      invariant total == SumOut(tx.vout, i) && MoneyRange(total)
    {
      if tx.vout[i].value < MIN_TXOUT_AMOUNT || tx.vout[i].value > MAX_MONEY {
        return false;
      }
      total := total + tx.vout[i].value;
      if !MoneyRange(total) {
        if OutputsInRange(tx.vout) {
          SumOutMonotone(tx.vout, i + 1, |tx.vout|);
        }
        return false;
      }
    }
    var seen: set<OutPoint> := {};
    for i := 0 to |tx.vin|
      invariant forall o :: o in seen <==> exists j :: 0 <= j < i && tx.vin[j].prevout == o
      invariant forall j, k :: 0 <= j < k < i ==> tx.vin[j].prevout != tx.vin[k].prevout
    {
      if tx.vin[i].prevout in seen {
        return false;
      }
      seen := seen + {tx.vin[i].prevout};
    }
    if tx.IsCoinBase() {
      return 2 <= |tx.vin[0].scriptSig| <= 100;
    }
    for i := 0 to |tx.vin|
      invariant forall j :: 0 <= j < i ==> !tx.vin[j].prevout.IsNull()
    {
      if tx.vin[i].prevout.IsNull() {
        return false;
      }
    }
    return true;
  }

  function MinFee(tx: Tx): (fee: int)
    ensures MIN_TX_FEE <= fee <= MAX_MONEY
  {
    var fee := (1 + tx.size / 1000) * MIN_TX_FEE;
    if MoneyRange(fee) then fee else MAX_MONEY
  }

  // ---------- transactions against the database ----------

  function InputValue(u: CoinMap, o: OutPoint): int {
    if CanSpend(u, o) then u[o.hash].vout[o.n].value else 0
  }

  function ValueIn(u: CoinMap, vin: seq<TxIn>, k: nat): int
    requires k <= |vin|
  {
    if k == 0 then 0 else ValueIn(u, vin, k - 1) + InputValue(u, vin[k - 1].prevout)
  }

  function SpentScript(u: CoinMap, o: OutPoint): Script {
    if CanSpend(u, o) then u[o.hash].vout[o.n].script else []
  }

  function P2SHSigOps(rules: Rules, u: CoinMap, vin: seq<TxIn>, k: nat): nat
    requires k <= |vin|
  {
    if k == 0 then 0 else
      P2SHSigOps(rules, u, vin, k - 1) + (rules.p2shSigOps)(SpentScript(u, vin[k - 1].prevout), vin[k - 1].scriptSig)
  }

  predicate Matured(u: CoinMap, o: OutPoint, height: int) {
    o.hash in u && (u[o.hash].coinBase ==> height - u[o.hash].height >= COINBASE_MATURITY)
  }

  /** CheckInputs without the scripts, for a transaction that is not a coinbase. */
  predicate InputsOk(u: CoinMap, tx: Tx, height: int) {
    && HaveInputs(u, tx.vin)
    && (forall i :: 0 <= i < |tx.vin| ==> Matured(u, tx.vin[i].prevout, height) && MoneyRange(InputValue(u, tx.vin[i].prevout)))
    && ValueIn(u, tx.vin, |tx.vin|) <= MAX_MONEY
    && ValueIn(u, tx.vin, |tx.vin|) - SumOut(tx.vout, |tx.vout|) >= MinFee(tx)
  }

  predicate ScriptsOk(rules: Rules, u: CoinMap, tx: Tx, p2sh: bool) {
    forall i :: 0 <= i < |tx.vin| ==> (rules.verifyScript)(tx, i, SpentScript(u, tx.vin[i].prevout), p2sh)
  }

  // ---------- blocks ----------

  predicate BlockOk(rules: Rules, block: Block) {
    && (rules.otherChecks)(block)
    && block.vtx != [] && block.vtx[0].IsCoinBase()
    && (forall i :: 1 <= i < |block.vtx| ==> !block.vtx[i].IsCoinBase())
    && (forall i :: 0 <= i < |block.vtx| ==> TransactionOk(block.vtx[i]))
    && (forall i, j :: 0 <= i < j < |block.vtx| ==> block.vtx[i].txid != block.vtx[j].txid)
  }

  predicate P2SHActive(block: Block) {
    block.time >= BIP16_SWITCH_TIME
  }

  /** Running totals of ConnectBlock after k transactions. */
  function SigOps(rules: Rules, u: CoinMap, block: Block, height: int, k: nat): int
    requires k <= |block.vtx|
  {
    if k == 0 then 0 else
      SigOps(rules, u, block, height, k - 1) + block.vtx[k - 1].sigOps
      + (if P2SHActive(block) && !block.vtx[k - 1].IsCoinBase()
         then P2SHSigOps(rules, CoinsAfter(u, block.vtx, height, k - 1), block.vtx[k - 1].vin, |block.vtx[k - 1].vin|) else 0)
  }

  function TxValueIn(u: CoinMap, tx: Tx): int {
    if tx.IsCoinBase() then 0 else ValueIn(u, tx.vin, |tx.vin|)
  }

  function BlockValueIn(u: CoinMap, vtx: seq<Tx>, height: int, k: nat): int
    requires k <= |vtx|
  {
    if k == 0 then 0 else BlockValueIn(u, vtx, height, k - 1) + TxValueIn(CoinsAfter(u, vtx, height, k - 1), vtx[k - 1])
  }

  function BlockValueOut(vtx: seq<Tx>, k: nat): int
    requires k <= |vtx|
  {
    if k == 0 then 0 else BlockValueOut(vtx, k - 1) + SumOut(vtx[k - 1].vout, |vtx[k - 1].vout|)
  }

  function BlockFees(u: CoinMap, vtx: seq<Tx>, height: int, k: nat): int
    requires k <= |vtx|
  {
    if k == 0 then 0 else
      BlockFees(u, vtx, height, k - 1) +
      if vtx[k - 1].IsCoinBase() then 0
      else TxValueIn(CoinsAfter(u, vtx, height, k - 1), vtx[k - 1]) - SumOut(vtx[k - 1].vout, |vtx[k - 1].vout|)
  }

  predicate TxConnects(rules: Rules, u: CoinMap, block: Block, height: int, i: nat)
    requires i < |block.vtx|
  {
    var before := CoinsAfter(u, block.vtx, height, i);
    && SigOps(rules, u, block, height, i + 1) <= MAX_BLOCK_SIGOPS
    && (!block.vtx[i].IsCoinBase() ==>
          && InputsOk(before, block.vtx[i], height)
          && (height >= rules.scriptHeight ==> ScriptsOk(rules, before, block.vtx[i], P2SHActive(block))))
  }

  function BlockValue(rules: Rules, bits: nat, fees: int): int {
    Target.TargetGetMint(rules.minLen, bits).1 + fees
  }

  predicate CoinbaseWithinLimit(rules: Rules, block: Block, fees: int)
    requires block.vtx != []
  {
    SumOut(block.vtx[0].vout, |block.vtx[0].vout|) <= BlockValue(rules, block.bits, fees) - MinFee(block.vtx[0]) + MIN_TX_FEE
  }

  /** What ConnectBlock accepts on top of database u at the given height (above genesis). */
  predicate Connects(rules: Rules, u: CoinMap, block: Block, height: int) {
    && BlockOk(rules, block)
    && ((rules.bip30Exempt)(height, block.hash) || NoOverwrite(u, block.vtx))
    && (forall i :: 0 <= i < |block.vtx| ==> TxConnects(rules, u, block, height, i))
    && CoinbaseWithinLimit(rules, block, BlockFees(u, block.vtx, height, |block.vtx|))
  }

  lemma BlockOkWellFormed(rules: Rules, block: Block)
    requires BlockOk(rules, block)
    ensures WellFormed(block.vtx)
  {
    forall i, j | 0 <= i < |block.vtx| && 0 <= j < |block.vtx[i].vout| ensures !block.vtx[i].vout[j].IsNull() {
      assert TransactionOk(block.vtx[i]);
    }
  }

  lemma ConnectsSpendable(rules: Rules, u: CoinMap, block: Block, height: int)
    requires Connects(rules, u, block, height)
    ensures WellFormed(block.vtx) && Spendable(u, block.vtx, height, |block.vtx|)
  {
    BlockOkWellFormed(rules, block);
    forall i | 1 <= i < |block.vtx| ensures HaveInputs(CoinsAfter(u, block.vtx, height, i), block.vtx[i].vin) {
      assert TxConnects(rules, u, block, height, i);
    }
  }

  // ---------- acceptance depends on unspent records only ----------

  lemma {:induction false} SumsCongruent(rules: Rules, u: CoinMap, v: CoinMap, vin: seq<TxIn>, k: nat)
    requires Faded(u, v) && k <= |vin|
    ensures ValueIn(u, vin, k) == ValueIn(v, vin, k)
    ensures P2SHSigOps(rules, u, vin, k) == P2SHSigOps(rules, v, vin, k)
  {
    hide Faded, InputValue, SpentScript;
    if k > 0 {
      SumsCongruent(rules, u, v, vin, k - 1);
      InputCongruent(u, v, vin[k - 1].prevout);
    }
  }

  lemma InputCongruent(u: CoinMap, v: CoinMap, o: OutPoint)
    requires Faded(u, v)
    ensures CanSpend(u, o) == CanSpend(v, o)
    ensures InputValue(u, o) == InputValue(v, o) && SpentScript(u, o) == SpentScript(v, o)
    ensures CanSpend(u, o) ==> u[o.hash].coinBase == v[o.hash].coinBase && u[o.hash].height == v[o.hash].height
  {
    assert Live(u, o.hash) == Live(v, o.hash);
    assert CanSpend(u, o) ==> Live(u, o.hash);
    assert CanSpend(v, o) ==> Live(v, o.hash);
  }

  lemma InputsOkCongruent(u: CoinMap, v: CoinMap, rules: Rules, tx: Tx, height: int, p2sh: bool)
    requires Faded(u, v)
    ensures InputsOk(u, tx, height) == InputsOk(v, tx, height)
    ensures ScriptsOk(rules, u, tx, p2sh) == ScriptsOk(rules, v, tx, p2sh)
    ensures TxValueIn(u, tx) == TxValueIn(v, tx)
  {
    hide Faded, CanSpend, InputValue, SpentScript, MoneyRange, MinFee, ValueIn, P2SHSigOps;
    SumsCongruent(rules, u, v, tx.vin, |tx.vin|);
    forall i | 0 <= i < |tx.vin|
      ensures var o := tx.vin[i].prevout;
              && CanSpend(u, o) == CanSpend(v, o) && InputValue(u, o) == InputValue(v, o)
              && SpentScript(u, o) == SpentScript(v, o)
    {
      InputCongruent(u, v, tx.vin[i].prevout);
    }
    MaturedCongruent(u, v, tx, height);
  }

  lemma MaturedCongruent(u: CoinMap, v: CoinMap, tx: Tx, height: int)
    requires Faded(u, v)
    ensures HaveInputs(u, tx.vin) == HaveInputs(v, tx.vin)
    ensures HaveInputs(u, tx.vin) ==> forall i :: 0 <= i < |tx.vin| ==>
              (Matured(u, tx.vin[i].prevout, height) <==> Matured(v, tx.vin[i].prevout, height))
  {
    hide Faded;
    forall i | 0 <= i < |tx.vin|
      ensures CanSpend(u, tx.vin[i].prevout) == CanSpend(v, tx.vin[i].prevout)
      ensures CanSpend(u, tx.vin[i].prevout) ==>
                (Matured(u, tx.vin[i].prevout, height) <==> Matured(v, tx.vin[i].prevout, height))
    {
      InputCongruent(u, v, tx.vin[i].prevout);
    }
  }

  lemma {:induction false} TotalsCongruent(rules: Rules, u: CoinMap, v: CoinMap, block: Block, height: int, k: nat)
    requires Faded(u, v) && k <= |block.vtx|
    ensures SigOps(rules, u, block, height, k) == SigOps(rules, v, block, height, k)
    ensures BlockFees(u, block.vtx, height, k) == BlockFees(v, block.vtx, height, k)
    ensures BlockValueIn(u, block.vtx, height, k) == BlockValueIn(v, block.vtx, height, k)
  {
    hide Faded, CoinsAfter, BlockUndo, TxValueIn, P2SHSigOps, SumOut, InputsOk, ScriptsOk;
    if k > 0 {
      TotalsCongruent(rules, u, v, block, height, k - 1);
      ConnectCongruent(u, v, block.vtx, height, k - 1);
      var u', v' := CoinsAfter(u, block.vtx, height, k - 1), CoinsAfter(v, block.vtx, height, k - 1);
      SumsCongruent(rules, u', v', block.vtx[k - 1].vin, |block.vtx[k - 1].vin|);
      InputsOkCongruent(u', v', rules, block.vtx[k - 1], height, true);
    }
  }

  lemma NoOverwriteCongruent(u: CoinMap, v: CoinMap, vtx: seq<Tx>)
    requires Faded(u, v)
    ensures NoOverwrite(u, vtx) == NoOverwrite(v, vtx)
  {
    forall i | 0 <= i < |vtx| ensures Live(u, vtx[i].txid) == Live(v, vtx[i].txid) {
    }
  }

  lemma TxConnectsCongruent(rules: Rules, u: CoinMap, v: CoinMap, block: Block, height: int, i: nat)
    requires Faded(u, v) && i < |block.vtx|
    ensures TxConnects(rules, u, block, height, i) == TxConnects(rules, v, block, height, i)
  {
    hide Faded, SigOps, CoinsAfter, InputsOk, ScriptsOk;
    TotalsCongruent(rules, u, v, block, height, i + 1);
    ConnectCongruent(u, v, block.vtx, height, i);
    InputsOkCongruent(CoinsAfter(u, block.vtx, height, i), CoinsAfter(v, block.vtx, height, i), rules, block.vtx[i], height, P2SHActive(block));
  }

  /** A block is accepted, or not, whatever pruned records happen to lie around and whatever
      versions were lost in storage. */
  lemma ConnectsCongruent(rules: Rules, u: CoinMap, v: CoinMap, block: Block, height: int)
    requires Faded(u, v)
    ensures Connects(rules, u, block, height) == Connects(rules, v, block, height)
  {
    hide Faded, BlockOk, NoOverwrite, TxConnects, CoinbaseWithinLimit;
    NoOverwriteCongruent(u, v, block.vtx);
    TotalsCongruent(rules, u, v, block, height, |block.vtx|);
    forall i | 0 <= i < |block.vtx| ensures TxConnects(rules, u, block, height, i) == TxConnects(rules, v, block, height, i) {
      TxConnectsCongruent(rules, u, v, block, height, i);
    }
  }
}
