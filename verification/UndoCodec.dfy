/** The undo file: the form in which the undo data of a block is written, and what reading it
    gives. A negative version does not survive.
    (src/main.h, CTxInUndo, CTxUndo and CBlockUndo; src/serialize.h, vectors and CompactSize) */
module UndoCodec {
  import opened Basics
  import opened Coins
  import opened Blocks
  import opened CoinsCodec
  import opened Validation
  import VarInt

  // ---------- undo data of one input ----------

  /** What the source's types and the spending of an unspent output give. */
  predicate Writable(u: TxInUndo) {
    u.height >= 0 && u.out.value >= 0
  }

  function EncodeUndo(sc: ScriptCodec, u: TxInUndo): Bytes
    requires Writable(u)
  {
    VarInt.Encode(u.height * 2 + if u.coinBase then 1 else 0)
    + (if u.height > 0 then VarInt.Encode(u.version) else [])
    + EncodeOut(sc, u.out)
  }

  function DecodeUndo(sc: ScriptCodec, s: Bytes): VarInt.Found<TxInUndo> {
    var code := VarInt.Decode(s);
    if code.Nothing? then VarInt.Nothing else
    var s1 := Drop(s, code.used);
    var version := if code.value / 2 > 0 then VarInt.Decode(s1) else VarInt.Found(0, 0);
    if version.Nothing? then VarInt.Nothing else
    var out := DecodeOut(sc, Drop(s1, version.used));
    if out.Nothing? then VarInt.Nothing else
    VarInt.Found(TxInUndo(out.value, code.value % 2 == 1, code.value / 2, version.value),
                 code.used + version.used + out.used)
  }

  /** Reading gives the stored form, and takes exactly the bytes written. */
  lemma UndoRoundTrip(sc: ScriptCodec, u: TxInUndo, rest: Bytes)
    requires sc.SelfDelimiting() && Writable(u)
    ensures DecodeUndo(sc, EncodeUndo(sc, u) + rest) == VarInt.Found(StoredUndo(u), |EncodeUndo(sc, u)|)
  {
    hide VarInt.Encode, VarInt.Decode, EncodeOut, DecodeOut, Drop, ScriptCodec.SelfDelimiting;
    var code := u.height * 2 + if u.coinBase then 1 else 0;
    var version := if u.height > 0 then VarInt.Encode(u.version) else [];
    var tail := EncodeOut(sc, u.out) + rest;
    assert EncodeUndo(sc, u) + rest == VarInt.Encode(code) + (version + tail);
    ReadNumber(code, version + tail);
    assert code / 2 == u.height && (code % 2 == 1 <==> u.coinBase);
    if u.height > 0 {
      ReadNumber(u.version, tail);
    } else {
      assert version + tail == tail;
      DropPrefix([], tail);
    }
    OutRoundTrip(sc, u.out, rest);
  }

  /** So undo data is read back as it was exactly if the version is natural, and zero where
      there is no height to go with it. */
  lemma UndoFaithfulIff(sc: ScriptCodec, u: TxInUndo, rest: Bytes)
    requires sc.SelfDelimiting() && Writable(u)
    ensures DecodeUndo(sc, EncodeUndo(sc, u) + rest) == VarInt.Found(u, |EncodeUndo(sc, u)|)
            <==> u.version >= 0 && (u.height == 0 ==> u.version == 0)
  {
    hide DecodeUndo, EncodeUndo, ScriptCodec.SelfDelimiting;
    UndoRoundTrip(sc, u, rest);
  }

  // ---------- lengths ----------

  function CompactSize(n: nat): Bytes {
    if n < 253 then [n]
    else if n <= 0xFFFF then [253] + Little(n, 2)
    else if n <= 0xFFFF_FFFF then [254] + Little(n, 4)
    else [255] + Little(n, 8)
  }

  function SizeWidth(b: Byte): nat {
    if b < 253 then 0 else if b == 253 then 2 else if b == 254 then 4 else 8
  }

  function ReadCompactSize(s: Bytes): VarInt.Found<nat> {
    if s == [] || |s| < 1 + SizeWidth(s[0]) then VarInt.Nothing else
    var k := SizeWidth(s[0]);
    var n: nat := if k == 0 then s[0] else FromLittle(s[1..1 + k]);
    if n > MAX_SIZE then VarInt.Nothing else VarInt.Found(n, 1 + k)
  }

  /** A length of a vector is read back exactly if it is within the limit for streams. */
  lemma CompactSizeIff(n: nat, rest: Bytes)
    requires n < Pow2(64)
    ensures ReadCompactSize(CompactSize(n) + rest) == (if n <= MAX_SIZE then VarInt.Found(n, |CompactSize(n)|) else VarInt.Nothing)
  {
    hide Little, FromLittle, Pow2;
    var s := CompactSize(n) + rest;
    if n >= 253 {
      var k := SizeWidth(s[0]);
      assert s[1..1 + k] == Little(n, k);
      LittleRoundTrip(n, k);
      WidthRoom();
    }
  }

  lemma PowerOfNothing()
    ensures Pow2(0) == 1
  {
  }

  lemma WidthRoom()
    ensures Pow2(16) == 0x1_0000 && Pow2(32) == 0x1_0000_0000
  {
    hide Pow2;
    PowerOfNothing();
    Pow2Byte(0);
    Pow2Byte(1);
    Pow2Byte(2);
    Pow2Byte(3);
  }

  // ---------- vectors ----------

  /** Whatever follows, x is read as y from the bytes written for it. */
  ghost predicate ReadsAs<T(!new)>(enc: T --> Bytes, dec: Bytes -> VarInt.Found<T>, x: T, y: T) {
    enc.requires(x) && forall rest: Bytes :: dec(enc(x) + rest) == VarInt.Found(y, |enc(x)|)
  }

  function EncodeAll<T>(enc: T --> Bytes, v: seq<T>): Bytes
    requires forall i :: 0 <= i < |v| ==> enc.requires(v[i])
  {
    if v == [] then [] else enc(v[0]) + EncodeAll(enc, v[1..])
  }

  function DecodeAll<T>(dec: Bytes -> VarInt.Found<T>, s: Bytes, n: nat): VarInt.Found<seq<T>>
    decreases n
  {
    if n == 0 then VarInt.Found([], 0) else
    var first := dec(s);
    if first.Nothing? then VarInt.Nothing else
    var others := DecodeAll(dec, Drop(s, first.used), n - 1);
    if others.Nothing? then VarInt.Nothing else
    VarInt.Found([first.value] + others.value, first.used + others.used)
  }

  function EncodeVector<T>(enc: T --> Bytes, v: seq<T>): Bytes
    requires forall i :: 0 <= i < |v| ==> enc.requires(v[i])
  {
    CompactSize(|v|) + EncodeAll(enc, v)
  }

  function DecodeVector<T>(dec: Bytes -> VarInt.Found<T>, s: Bytes): VarInt.Found<seq<T>> {
    var size := ReadCompactSize(s);
    if size.Nothing? then VarInt.Nothing else DecodeAll(dec, Drop(s, size.used), size.value).After(size.used)
  }

  lemma {:induction false} AllReadAs<T(!new)>(enc: T --> Bytes, dec: Bytes -> VarInt.Found<T>, v: seq<T>, w: seq<T>, rest: Bytes)
    requires forall i :: 0 <= i < |v| ==> enc.requires(v[i])
    requires |w| == |v| && forall i :: 0 <= i < |v| ==> ReadsAs(enc, dec, v[i], w[i])
    ensures DecodeAll(dec, EncodeAll(enc, v) + rest, |v|) == VarInt.Found(w, |EncodeAll(enc, v)|)
    decreases |v|
  {
    if v != [] {
      var tail := EncodeAll(enc, v[1..]) + rest;
      assert ReadsAs(enc, dec, v[0], w[0]);
      assert EncodeAll(enc, v) + rest == enc(v[0]) + tail;
      DropPrefix(enc(v[0]), tail);
      AllReadAs(enc, dec, v[1..], w[1..], rest);
      assert w == [w[0]] + w[1..];
    } else {
      assert w == [];
    }
  }

  lemma VectorReadsAs<T(!new)>(enc: T --> Bytes, dec: Bytes -> VarInt.Found<T>, v: seq<T>, w: seq<T>, rest: Bytes)
    requires forall i :: 0 <= i < |v| ==> enc.requires(v[i])
    requires |w| == |v| <= MAX_SIZE && forall i :: 0 <= i < |v| ==> ReadsAs(enc, dec, v[i], w[i])
    ensures DecodeVector(dec, EncodeVector(enc, v) + rest) == VarInt.Found(w, |EncodeVector(enc, v)|)
  {
    hide CompactSize, ReadCompactSize, EncodeAll, DecodeAll, Drop, ReadsAs;
    var tail := EncodeAll(enc, v) + rest;
    assert EncodeVector(enc, v) + rest == CompactSize(|v|) + tail;
    WidthOfSize(|v|);
    CompactSizeIff(|v|, tail);
    DropPrefix(CompactSize(|v|), tail);
    AllReadAs(enc, dec, v, w, rest);
  }

  lemma WidthOfSize(n: nat)
    requires n <= MAX_SIZE
    ensures n < Pow2(64)
  {
    hide Pow2;
    WidthRoom();
    Pow2Byte(4);
    Pow2Byte(5);
    Pow2Byte(6);
    Pow2Byte(7);
  }

  // ---------- undo data of a block ----------

  ghost predicate TxWritable(undo: seq<TxInUndo>) {
    |undo| <= MAX_SIZE && forall j :: 0 <= j < |undo| ==> Writable(undo[j])
  }

  ghost predicate BlockWritable(undo: seq<seq<TxInUndo>>) {
    |undo| <= MAX_SIZE && forall i :: 0 <= i < |undo| ==> TxWritable(undo[i])
  }

  ghost function EncodeTxUndo(sc: ScriptCodec, undo: seq<TxInUndo>): Bytes
    requires TxWritable(undo)
  {
    EncodeVector(u requires Writable(u) => EncodeUndo(sc, u), undo)
  }

  function DecodeTxUndo(sc: ScriptCodec, s: Bytes): VarInt.Found<seq<TxInUndo>> {
    DecodeVector(t => DecodeUndo(sc, t), s)
  }

  ghost function EncodeBlockUndo(sc: ScriptCodec, undo: seq<seq<TxInUndo>>): Bytes
    requires BlockWritable(undo)
  {
    EncodeVector(tx requires TxWritable(tx) => EncodeTxUndo(sc, tx), undo)
  }

  function DecodeBlockUndo(sc: ScriptCodec, s: Bytes): VarInt.Found<seq<seq<TxInUndo>>> {
    DecodeVector(t => DecodeTxUndo(sc, t), s)
  }

  lemma TxUndoRoundTrip(sc: ScriptCodec, undo: seq<TxInUndo>, rest: Bytes)
    requires sc.SelfDelimiting() && TxWritable(undo)
    ensures DecodeTxUndo(sc, EncodeTxUndo(sc, undo) + rest) == VarInt.Found(StoredTxUndo(undo), |EncodeTxUndo(sc, undo)|)
  {
    hide EncodeUndo, DecodeUndo, EncodeVector, DecodeVector, StoredUndo, ScriptCodec.SelfDelimiting;
    var enc, dec := (u: TxInUndo) requires Writable(u) => EncodeUndo(sc, u), (t: Bytes) => DecodeUndo(sc, t);
    forall i | 0 <= i < |undo| ensures ReadsAs(enc, dec, undo[i], StoredTxUndo(undo)[i]) {
      forall rest: Bytes ensures dec(enc(undo[i]) + rest) == VarInt.Found(StoredTxUndo(undo)[i], |enc(undo[i])|) {
        UndoRoundTrip(sc, undo[i], rest);
      }
    }
    VectorReadsAs(enc, dec, undo, StoredTxUndo(undo), rest);
  }

  /** The whole undo data of a block is read back in its stored form: all that DisconnectBlock
      gets to see of what ConnectBlock collected. */
  lemma BlockUndoRoundTrip(sc: ScriptCodec, undo: seq<seq<TxInUndo>>, rest: Bytes)
    requires sc.SelfDelimiting() && BlockWritable(undo)
    ensures DecodeBlockUndo(sc, EncodeBlockUndo(sc, undo) + rest)
            == VarInt.Found(StoredBlockUndo(undo), |EncodeBlockUndo(sc, undo)|)
  {
    hide EncodeTxUndo, DecodeTxUndo, EncodeVector, DecodeVector, StoredTxUndo, ScriptCodec.SelfDelimiting;
    var enc, dec := (tx: seq<TxInUndo>) requires TxWritable(tx) => EncodeTxUndo(sc, tx), (t: Bytes) => DecodeTxUndo(sc, t);
    forall i | 0 <= i < |undo| ensures ReadsAs(enc, dec, undo[i], StoredBlockUndo(undo)[i]) {
      forall rest: Bytes ensures dec(enc(undo[i]) + rest) == VarInt.Found(StoredBlockUndo(undo)[i], |enc(undo[i])|) {
        TxUndoRoundTrip(sc, undo[i], rest);
      }
    }
    VectorReadsAs(enc, dec, undo, StoredBlockUndo(undo), rest);
  }

  lemma InputUndoWritable(before: CoinMap, tx: Tx, height: int, j: nat)
    requires Tidy(before) && DistinctInputs(tx.vin) && InputsOk(before, tx, height) && j < |tx.vin|
    ensures Writable(UndoFirst(before, tx.vin, |tx.vin|)[j])
  {
    hide SpendFirst, UndoFirst, ValueIn, MinFee;
    InputInTurn(before, tx.vin, j);
    UndoFirstAt(before, tx.vin, |tx.vin|, j);
    var o := tx.vin[j].prevout;
    assert CanSpend(before, o) && MoneyRange(InputValue(before, o));
    assert !SpendFirst(before, tx.vin, j)[o.hash].vout[o.n].IsNull();
  }

  /** The undo data of every block that connects can be written, given what the limit on the
      size of a block makes of its numbers of transactions and inputs. */
  lemma ConnectedUndoWritable(rules: Rules, u: CoinMap, block: Block, height: int)
    requires Tidy(u) && height >= 1 && Connects(rules, u, block, height) && NoOverwrite(u, block.vtx)
    requires |block.vtx| <= MAX_SIZE && forall i :: 0 <= i < |block.vtx| ==> |block.vtx[i].vin| <= MAX_SIZE
    ensures block.vtx != [] && BlockWritable(BlockUndo(u, block.vtx, height, |block.vtx|))
  {
    hide Tidy, NoOverwrite, Spendable, DistinctInputs, InputsOk, CoinsAfter, BlockUndo, UndoFirst, Writable, BlockOk;
    ConnectsSpendable(rules, u, block, height);
    var vtx := block.vtx;
    var undo := BlockUndo(u, vtx, height, |vtx|);
    forall i | 0 <= i < |undo| ensures TxWritable(undo[i]) {
      BlockFactsAt(u, vtx, height, i + 1);
      BlockUndoAt(u, vtx, height, |vtx|, i + 1);
      assert TxConnects(rules, u, block, height, i + 1);
      forall j | 0 <= j < |undo[i]| ensures Writable(undo[i][j]) {
        InputUndoWritable(CoinsAfter(u, vtx, height, i + 1), vtx[i + 1], height, j);
      }
    }
  }
}
