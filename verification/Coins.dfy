/** One record of the coin database: what is left of a transaction once its spent
    outputs are dropped, how an output is spent, and how a spend is undone.
    (src/main.h, CTxOut / CTxInUndo / CCoins; src/main.cpp, the inner loop of DisconnectBlock) */
module Coins {
  import opened Basics
  import VarInt

  type Script = seq<Byte>

  /** An output; value -1 marks a spent one. */
  datatype TxOut = TxOut(value: int, script: Script) {
    predicate IsNull() {
      value == -1
    }
  }

  const NULL_OUT := TxOut(-1, [])

  datatype OutPoint = OutPoint(hash: Hash, n: nat) {
    predicate IsNull() {
      hash == 0 && n == 0xFFFF_FFFF
    }
  }

  /** Undo data for one input. The metadata is kept only when the spend removed the
      record's last output; height 0 says that it did not. */
  datatype TxInUndo = TxInUndo(out: TxOut, coinBase: bool, height: int, version: int)

  datatype CoinRecord = CoinRecord(coinBase: bool, vout: seq<TxOut>, height: int, version: int) {

    predicate IsAvailable(n: nat) {
      n < |vout| && !vout[n].IsNull()
    }

    predicate IsPruned() {
      forall i :: 0 <= i < |vout| ==> vout[i].IsNull()
    }

    /** Every record the database holds: spent outputs are blanked completely, and
        there is none at the end. */
    predicate IsTidy() {
      && (forall i :: 0 <= i < |vout| && vout[i].IsNull() ==> vout[i] == NULL_OUT)
      && (|vout| > 0 ==> !vout[|vout| - 1].IsNull())
    }
  }

  const EMPTY_RECORD := CoinRecord(false, [], 0, 0)

  /** The longest prefix that does not end in a spent output. */
  function Trim(vout: seq<TxOut>): (r: seq<TxOut>)
    ensures r <= vout
    ensures |r| > 0 ==> !r[|r| - 1].IsNull()
    ensures forall i :: |r| <= i < |vout| ==> vout[i].IsNull()
  {
    if |vout| > 0 && vout[|vout| - 1].IsNull() then Trim(vout[..|vout| - 1]) else vout
  }

  method Cleanup(c: CoinRecord) returns (r: CoinRecord)
    ensures r == c.(vout := Trim(c.vout))
  {
    var vout := c.vout;
    while |vout| > 0 && vout[|vout| - 1].IsNull()
      invariant Trim(vout) == Trim(c.vout)
      decreases |vout|
    {
      vout := vout[..|vout| - 1];
    }
    r := c.(vout := vout);
  }

  // ---------- spending an output ----------

  function SpendRecord(c: CoinRecord, n: nat): CoinRecord
    requires c.IsAvailable(n)
  {
    c.(vout := Trim(c.vout[n := NULL_OUT]))
  }

  function SpendUndo(c: CoinRecord, n: nat): TxInUndo
    requires c.IsAvailable(n)
  {
    if Trim(c.vout[n := NULL_OUT]) == []
    then TxInUndo(c.vout[n], c.coinBase, c.height, c.version)
    else TxInUndo(c.vout[n], false, 0, 0)
  }

  method Spend(c: CoinRecord, n: nat) returns (ok: bool, r: CoinRecord, undo: TxInUndo)
    ensures ok <==> c.IsAvailable(n)
    ensures ok ==> r == SpendRecord(c, n) && undo == SpendUndo(c, n)
    ensures !ok ==> r == c
  {
    undo := TxInUndo(NULL_OUT, false, 0, 0);
    if n >= |c.vout| || c.vout[n].IsNull() {
      return false, c, undo;
    }
    undo := TxInUndo(c.vout[n], false, 0, 0);
    r := Cleanup(c.(vout := c.vout[n := NULL_OUT]));
    if |r.vout| == 0 {
      undo := undo.(height := c.height, coinBase := c.coinBase, version := c.version);
    }
    ok := true;
  }

  /** Spending removes exactly one output: every other one keeps its index and value,
      and the record stays tidy. */
  lemma SpendRemovesOne(c: CoinRecord, n: nat, m: nat)
    requires c.IsAvailable(n) && c.IsTidy()
    ensures SpendRecord(c, n).IsTidy()
    ensures SpendRecord(c, n).IsAvailable(m) <==> m != n && c.IsAvailable(m)
    ensures SpendRecord(c, n).IsAvailable(m) ==> SpendRecord(c, n).vout[m] == c.vout[m]
  {
    var v := c.vout[n := NULL_OUT];
    var r := Trim(v);
    assert forall i :: 0 <= i < |r| ==> r[i] == v[i];
    if m < |v| {
      assert v[m] == if m == n then NULL_OUT else c.vout[m];
    }
  }

  // ---------- undoing a spend ----------

  /** vector::resize with default-constructed (spent) outputs, never shrinking. */
  function Grow(vout: seq<TxOut>, len: nat): (r: seq<TxOut>)
  {
    if |vout| < len then vout + seq(len - |vout|, _ => NULL_OUT) else vout
  }

  /** What DisconnectBlock rebuilds from the record it finds and the stored undo data. */
  function RestoreRecord(found: CoinRecord, n: nat, undo: TxInUndo): CoinRecord
  {
    var c := if undo.height != 0 then CoinRecord(undo.coinBase, [], undo.height, undo.version) else found;
    c.(vout := Grow(c.vout, n + 1)[n := undo.out])
  }

  /** No inconsistency is reported while rebuilding. */
  predicate RestoreClean(found: CoinRecord, n: nat, undo: TxInUndo)
  {
    if undo.height != 0 then found.IsPruned()
    else !found.IsPruned() && !found.IsAvailable(n)
  }

  // ---------- the stored forms ----------

  /** A tidy record after a round through the database: a negative version is cut. */
  function StoredRecord(c: CoinRecord): CoinRecord {
    c.(version := VarInt.Kept(c.version))
  }

  /** Undo data after a round through the undo file: the version is written only beside a
      height, and a negative one is cut. */
  function StoredUndo(u: TxInUndo): TxInUndo {
    u.(version := if u.height == 0 then 0 else VarInt.Kept(u.version))
  }

  /** A record that may have been through the database. */
  predicate FadedRecord(c: CoinRecord, d: CoinRecord) {
    d == c || d == StoredRecord(c)
  }

  /** Stored undo data takes back a spend up to the version: whatever spent record is found
      in place of the one the spend left, the rebuilt record has the old length, outputs,
      height and coinbase flag, and nothing is reported. The version is that of the record
      found; if the spend took the last output it is the stored one, which is the old
      version exactly if that is not negative. */
  lemma RestoreUndoesSpend(c: CoinRecord, n: nat, found: CoinRecord)
    requires c.IsAvailable(n) && c.IsTidy() && c.height != 0
    requires if SpendRecord(c, n).IsPruned() then found.IsPruned() else FadedRecord(SpendRecord(c, n), found)
    ensures var version := if SpendRecord(c, n).IsPruned() then VarInt.Kept(c.version) else found.version;
            RestoreRecord(found, n, StoredUndo(SpendUndo(c, n))) == c.(version := version)
    ensures RestoreClean(found, n, StoredUndo(SpendUndo(c, n)))
    ensures SpendRecord(c, n).IsPruned() ==>
              (RestoreRecord(found, n, StoredUndo(SpendUndo(c, n))) == c <==> c.version >= 0)
  {
    var v := c.vout[n := NULL_OUT];
    var spent := SpendRecord(c, n);
    assert forall i :: 0 <= i < |spent.vout| ==> spent.vout[i] == v[i];
    assert forall i :: |spent.vout| <= i < |v| ==> v[i] == NULL_OUT;
    assert v[|v| - 1] == if n == |v| - 1 then NULL_OUT else c.vout[|v| - 1];
    assert spent.vout == [] || |spent.vout| <= n ==> |c.vout| == n + 1;
    if spent.vout == [] {
      assert Grow([], n + 1)[n := c.vout[n]] == c.vout;
    } else {
      assert !spent.vout[|spent.vout| - 1].IsNull();
      SpendRemovesOne(c, n, n);
      assert n < |spent.vout| ==> |spent.vout| == |c.vout|;
      assert Grow(spent.vout, n + 1)[n := c.vout[n]] == c.vout;
    }
  }

  /** Height 0 is what undo data uses for "not the last output", so the clean restore holds
      exactly for records of another height, or while outputs remain. */
  lemma CleanRestoreNeedsHeight(c: CoinRecord, n: nat)
    requires c.IsAvailable(n) && c.IsTidy()
    ensures RestoreClean(SpendRecord(c, n), n, StoredUndo(SpendUndo(c, n))) <==> c.height != 0 || !SpendRecord(c, n).IsPruned()
  {
    var spent := SpendRecord(c, n);
    assert spent.vout != [] ==> !spent.vout[|spent.vout| - 1].IsNull();
    if c.height != 0 {
      RestoreUndoesSpend(c, n, spent);
    } else {
      SpendRemovesOne(c, n, n);
    }
  }
}
