/** Conservation of money: connecting a block changes the value of the coin database by
    exactly what the block index records, and by no more than the mint of its target.
    (src/main.cpp, ConnectBlock lines 1602-1663 and GetBlockValue) */
module Supply {
  import opened Basics
  import opened Coins
  import opened Blocks
  import opened Validation
  import Target

  /** Value of the unspent outputs among the first k. */
  function Unspent(vout: seq<TxOut>, k: nat): int
    requires k <= |vout|
  {
    if k == 0 then 0 else Unspent(vout, k - 1) + if vout[k - 1].IsNull() then 0 else vout[k - 1].value
  }

  function RecordValue(c: CoinRecord): int {
    Unspent(c.vout, |c.vout|)
  }

  /** Value of every unspent output in the database. */
  ghost function Total(u: CoinMap): int {
    if u == map[] then 0 else
      var t :| t in u;
      RecordValue(u[t]) + Total(u - {t})
  }

  lemma {:induction false} TotalRemove(u: CoinMap, t: Hash)
    requires t in u
    ensures Total(u) == RecordValue(u[t]) + Total(u - {t})
    decreases |u|
  {
    hide RecordValue;
    var s :| s in u && Total(u) == RecordValue(u[s]) + Total(u - {s});
    if s != t {
      TotalRemove(u - {s}, t);
      TotalRemove(u - {t}, s);
      assert (u - {s}) - {t} == (u - {t}) - {s};
    }
  }

  function ValueAt(u: CoinMap, t: Hash): int {
    if t in u then RecordValue(u[t]) else 0
  }

  lemma TotalUpdate(u: CoinMap, t: Hash, r: CoinRecord)
    ensures Total(u[t := r]) == Total(u) - ValueAt(u, t) + RecordValue(r)
  {
    hide RecordValue;
    TotalRemove(u[t := r], t);
    assert u[t := r] - {t} == u - {t};
    if t in u {
      TotalRemove(u, t);
    } else {
      assert u - {t} == u;
    }
  }

  lemma {:induction false} UnspentPrefix(v: seq<TxOut>, w: seq<TxOut>, k: nat)
    requires k <= |v| && k <= |w| && forall i :: 0 <= i < k ==> v[i] == w[i]
    ensures Unspent(v, k) == Unspent(w, k)
  {
    if k > 0 {
      UnspentPrefix(v, w, k - 1);
    }
  }

  lemma {:induction false} UnspentTail(v: seq<TxOut>, j: nat, k: nat)
    requires j <= k <= |v| && forall i :: j <= i < k ==> v[i].IsNull()
    ensures Unspent(v, k) == Unspent(v, j)
  {
    if j < k {
      UnspentTail(v, j, k - 1);
    }
  }

  lemma {:induction false} UnspentUpdate(v: seq<TxOut>, n: nat, k: nat)
    requires n < |v| && k <= |v| && !v[n].IsNull()
    ensures Unspent(v[n := NULL_OUT], k) == Unspent(v, k) - if n < k then v[n].value else 0
  {
    if k > 0 {
      UnspentUpdate(v, n, k - 1);
    }
  }

  lemma SpendValue(c: CoinRecord, n: nat)
    requires c.IsAvailable(n)
    ensures RecordValue(SpendRecord(c, n)) == RecordValue(c) - c.vout[n].value
  {
    var v := c.vout[n := NULL_OUT];
    var r := Trim(v);
    UnspentUpdate(c.vout, n, |v|);
    UnspentTail(v, |r|, |v|);
    UnspentPrefix(v, r, |r|);
  }

  lemma PrunedValue(c: CoinRecord)
    requires c.IsPruned()
    ensures RecordValue(c) == 0
  {
    UnspentTail(c.vout, 0, |c.vout|);
  }

  /** Spending the inputs of a transaction lowers the total by what they are worth. */
  lemma {:induction false} SpendTotal(u: CoinMap, vin: seq<TxIn>, k: nat)
    requires Tidy(u) && DistinctInputs(vin) && HaveInputs(u, vin) && k <= |vin|
    ensures Total(SpendFirst(u, vin, k)) == Total(u) - ValueIn(u, vin, k)
  {
    hide Tidy, DistinctInputs, HaveInputs, RecordValue, Total, SpendRecord;
    if k > 0 {
      SpendTotal(u, vin, k - 1);
      InputInTurn(u, vin, k - 1);
      var before := SpendFirst(u, vin, k - 1);
      var o := vin[k - 1].prevout;
      SpendValue(before[o.hash], o.n);
      TotalUpdate(before, o.hash, SpendRecord(before[o.hash], o.n));
      InputCanBeSpent(u, vin, k - 1);
    }
  }

  lemma InputCanBeSpent(u: CoinMap, vin: seq<TxIn>, i: nat)
    requires HaveInputs(u, vin) && i < |vin|
    ensures CanSpend(u, vin[i].prevout)
  {
  }

  lemma {:induction false} UnspentIsSum(vout: seq<TxOut>, k: nat)
    requires k <= |vout| && forall i :: 0 <= i < |vout| ==> !vout[i].IsNull()
    ensures Unspent(vout, k) == SumOut(vout, k)
  {
    if k > 0 {
      UnspentIsSum(vout, k - 1);
    }
  }

  lemma UpdateTotal(before: CoinMap, tx: Tx, height: int)
    requires Tidy(before) && !Live(before, tx.txid)
    requires DistinctInputs(tx.vin) && (tx.IsCoinBase() || HaveInputs(before, tx.vin))
    requires forall j :: 0 <= j < |tx.vout| ==> !tx.vout[j].IsNull()
    ensures Total(AfterTx(before, tx, height)) == Total(before) - TxValueIn(before, tx) + SumOut(tx.vout, |tx.vout|)
  {
    hide Tidy, DistinctInputs, HaveInputs, Total, SpendFirst, ValueIn;
    var spent := Spent(before, tx);
    if !tx.IsCoinBase() {
      SpendTotal(before, tx.vin, |tx.vin|);
      SpendKeepsDead(before, tx.vin, |tx.vin|, tx.txid);
    }
    assert !Live(spent, tx.txid);
    if tx.txid in spent {
      PrunedValue(spent[tx.txid]);
    }
    TotalUpdate(spent, tx.txid, NewRecord(tx, height));
    UnspentIsSum(tx.vout, |tx.vout|);
  }

  /** Along a block, money is created by outputs and destroyed by inputs, and by nothing else. */
  lemma {:induction false} ConnectTotal(u: CoinMap, vtx: seq<Tx>, height: int, k: nat)
    requires Tidy(u) && WellFormed(vtx) && NoOverwrite(u, vtx) && height >= 1
    requires k <= |vtx| && Spendable(u, vtx, height, |vtx|)
    ensures Total(CoinsAfter(u, vtx, height, k)) == Total(u) + BlockValueOut(vtx, k) - BlockValueIn(u, vtx, height, k)
  {
    hide Tidy, Live, AfterTx, DistinctInputs, HaveInputs, WellFormed, NoOverwrite, Spendable, Total, SumOut, TxValueIn;
    if k > 0 {
      ConnectTotal(u, vtx, height, k - 1);
      BlockFactsAt(u, vtx, height, k - 1);
      UpdateTotal(CoinsAfter(u, vtx, height, k - 1), vtx[k - 1], height);
    }
  }

  lemma {:induction false} FeesAreTheDifference(u: CoinMap, vtx: seq<Tx>, height: int, k: nat)
    requires WellFormed(vtx) && 1 <= k <= |vtx|
    ensures BlockFees(u, vtx, height, k) ==
            BlockValueIn(u, vtx, height, k) - BlockValueOut(vtx, k) + SumOut(vtx[0].vout, |vtx[0].vout|)
  {
    hide SumOut, ValueIn, CoinsAfter;
    if k > 1 {
      FeesAreTheDifference(u, vtx, height, k - 1);
    }
  }

  /** The supply recorded for a block is its parent's plus outputs minus inputs. */
  function SupplyChange(u: CoinMap, block: Block, height: int): int {
    BlockValueOut(block.vtx, |block.vtx|) - BlockValueIn(u, block.vtx, height, |block.vtx|)
  }

  /** An accepted block changes the total value of the database by exactly the recorded
      supply change, which is never above the mint of its target. */
  lemma ConnectedBlockMints(rules: Rules, u: CoinMap, block: Block, height: int)
    requires Tidy(u) && height >= 1 && Connects(rules, u, block, height) && NoOverwrite(u, block.vtx)
    ensures Total(CoinsAfter(u, block.vtx, height, |block.vtx|)) == Total(u) + SupplyChange(u, block, height)
    ensures SupplyChange(u, block, height) <= Target.TargetGetMint(rules.minLen, block.bits).1
  {
    hide Tidy, Total, NoOverwrite, SumOut, CoinsAfter;
    ConnectsSpendable(rules, u, block, height);
    ConnectTotal(u, block.vtx, height, |block.vtx|);
    FeesAreTheDifference(u, block.vtx, height, |block.vtx|);
  }

  // ---------- the total ignores pruned records and versions ----------

  ghost function Alive(u: CoinMap): CoinMap {
    map t | t in u && !u[t].IsPruned() :: StoredRecord(u[t])
  }

  lemma StoredValue(c: CoinRecord)
    ensures RecordValue(StoredRecord(c)) == RecordValue(c)
  {
  }

  lemma {:induction false} TotalOfAlive(u: CoinMap)
    ensures Total(u) == Total(Alive(u))
    decreases |u|
  {
    hide RecordValue;
    if u == map[] {
      assert Alive(u) == map[];
    } else {
      var t :| t in u && Total(u) == RecordValue(u[t]) + Total(u - {t});
      TotalOfAlive(u - {t});
      if u[t].IsPruned() {
        PrunedValue(u[t]);
        assert Alive(u) == Alive(u - {t});
      } else {
        TotalRemove(Alive(u), t);
        StoredValue(u[t]);
        assert Alive(u) - {t} == Alive(u - {t});
      }
    }
  }

  lemma FadedTotal(u: CoinMap, v: CoinMap)
    requires Faded(u, v)
    ensures Total(u) == Total(v)
  {
    hide Total;
    TotalOfAlive(u);
    TotalOfAlive(v);
    forall t ensures Live(u, t) == Live(v, t) && (Live(u, t) ==> StoredRecord(u[t]) == StoredRecord(v[t])) {
    }
    assert Alive(u) == Alive(v);
  }
}
