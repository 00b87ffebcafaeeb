/** The database form of a coin record: version, a code word, a mask of the unspent outputs
    after the first two, the unspent outputs, and the height.
    (src/main.h, CCoins::CalcMaskSize, Serialize and Unserialize; CTxOutCompressor) */
module CoinsCodec {
  import opened Basics
  import opened Coins
  import opened Amounts
  import VarInt

  type Bytes = seq<Byte>

  /** The script compressor, of which only that it marks its own end matters here. */
  datatype ScriptCodec = ScriptCodec(enc: Script -> Bytes, dec: Bytes -> VarInt.Found<Script>) {
    ghost predicate SelfDelimiting() {
      forall s, rest :: dec(enc(s) + rest) == VarInt.Found(s, |enc(s)|)
    }
  }

  // ---------- one output ----------

  function EncodeOut(sc: ScriptCodec, o: TxOut): Bytes
    requires o.value >= 0
  {
    VarInt.Encode(Compress(o.value)) + sc.enc(o.script)
  }

  function DecodeOut(sc: ScriptCodec, s: Bytes): VarInt.Found<TxOut> {
    var amount := VarInt.Decode(s);
    if amount.Nothing? || amount.used > |s| || amount.value < 0 then VarInt.Nothing
    else
      var script := sc.dec(s[amount.used..]);
      if script.Nothing? then VarInt.Nothing
      else VarInt.Found(TxOut(Decompress(amount.value), script.value), amount.used + script.used)
  }

  lemma OutRoundTrip(sc: ScriptCodec, o: TxOut, rest: Bytes)
    requires sc.SelfDelimiting() && o.value >= 0
    ensures DecodeOut(sc, EncodeOut(sc, o) + rest) == VarInt.Found(o, |EncodeOut(sc, o)|)
  {
    hide Compress, Decompress;
    DecompressCompress(o.value);
    var amount := VarInt.Encode(Compress(o.value));
    var tail := sc.enc(o.script) + rest;
    VarInt.RoundTrip(Compress(o.value), tail);
    assert EncodeOut(sc, o) + rest == amount + tail;
    assert (amount + tail)[|amount|..] == tail;
  }

  // ---------- mask bytes ----------

  /** The number whose binary digits are x, the first one counting least. */
  function Value(x: seq<bool>): nat {
    if |x| == 0 then 0 else (if x[0] then 1 else 0) + 2 * Value(x[1..])
  }

  function Digits(v: nat, n: nat): seq<bool> {
    if n == 0 then [] else [v % 2 == 1] + Digits(v / 2, n - 1)
  }

  lemma {:induction false} DigitsRoundTrip(x: seq<bool>)
    ensures Digits(Value(x), |x|) == x && Value(x) < Pow2(|x|)
    ensures Value(x) == 0 <==> forall i :: 0 <= i < |x| ==> !x[i]
  {
    if |x| > 0 {
      DigitsRoundTrip(x[1..]);
      var d := if x[0] then 1 else 0;
      assert Value(x) / 2 == Value(x[1..]) && Value(x) % 2 == d;
      assert x == [x[0]] + x[1..];
      if Value(x) == 0 {
        forall i | 0 <= i < |x| ensures !x[i] {
          assert i > 0 ==> x[i] == x[1..][i - 1];
        }
      } else {
        assert x[0] || exists i :: 0 <= i < |x[1..]| && x[1..][i];
      }
    }
  }

  lemma EightDigits(x: seq<bool>)
    requires |x| == 8
    ensures Value(x) < 256
  {
    DigitsRoundTrip(x);
    assert Pow2(4) == 16;
    assert Pow2(8) == 16 * Pow2(4) by {
      assert Pow2(6) == 4 * Pow2(4) && Pow2(8) == 4 * Pow2(6);
    }
  }

  function ByteOf(x: seq<bool>): Byte
    requires |x| == 8
  {
    EightDigits(x);
    Value(x)
  }

  function BitsOf(b: Byte): seq<bool> {
    Digits(b, 8)
  }

  lemma BitsRoundTrip(x: seq<bool>)
    requires |x| == 8
    ensures BitsOf(ByteOf(x)) == x
    ensures ByteOf(x) == 0 <==> forall i :: 0 <= i < 8 ==> !x[i]
  {
    DigitsRoundTrip(x);
  }

  /** Availability of outputs 2 + 8b to 9 + 8b. */
  function MaskBits(c: CoinRecord, b: nat): (x: seq<bool>)
    ensures |x| == 8
  {
    seq(8, i requires 0 <= i < 8 => c.IsAvailable(2 + 8 * b + i))
  }

  function MaskByte(c: CoinRecord, b: nat): Byte {
    ByteOf(MaskBits(c, b))
  }

  /** Mask bytes b to n - 1. */
  function Mask(c: CoinRecord, b: nat, n: nat): Bytes
    decreases n - b
  {
    if b >= n then [] else [MaskByte(c, b)] + Mask(c, b + 1, n)
  }

  function Nonzero(c: CoinRecord, b: nat, n: nat): nat
    decreases n - b
  {
    if b >= n then 0 else (if MaskByte(c, b) != 0 then 1 else 0) + Nonzero(c, b + 1, n)
  }

  function Avail(c: CoinRecord, i: nat, n: nat): seq<bool>
    decreases n - i
  {
    if i >= n then [] else [c.IsAvailable(i)] + Avail(c, i + 1, n)
  }

  /** Reads mask bytes until count nonzero ones have been seen. */
  function ReadMask(s: Bytes, count: int): VarInt.Found<seq<bool>>
    decreases |s|
  {
    if count <= 0 then VarInt.Found([], 0)
    else if |s| == 0 then VarInt.Nothing
    else
      var r := ReadMask(s[1..], if s[0] != 0 then count - 1 else count);
      if r.Nothing? then VarInt.Nothing else VarInt.Found(BitsOf(s[0]) + r.value, r.used + 1)
  }

  /** n is where the mask ends: the last byte is in use, and so is no later output. */
  ghost predicate MaskEnds(c: CoinRecord, n: nat) {
    && (n > 0 ==> MaskByte(c, n - 1) != 0)
    && forall i: nat :: i >= 2 + 8 * n ==> !c.IsAvailable(i)
  }

  lemma {:induction false} NonzeroLeft(c: CoinRecord, b: nat, n: nat)
    requires b < n && MaskByte(c, n - 1) != 0
    ensures Nonzero(c, b, n) >= 1
    decreases n - b
  {
    hide MaskByte;
    if b < n - 1 {
      NonzeroLeft(c, b + 1, n);
    }
  }

  lemma EightMore(c: CoinRecord, b: nat, n: nat)
    requires b < n
    ensures Avail(c, 2 + 8 * b, 2 + 8 * n) == MaskBits(c, b) + Avail(c, 2 + 8 * (b + 1), 2 + 8 * n)
  {
    var i, e := 2 + 8 * b, 2 + 8 * n;
    hide Avail, MaskBits;
    AvailStep(c, i, 8, e);
    AvailAt(c, i, i + 8, 0);
    var x := Avail(c, i, i + 8);
    forall k | 0 <= k < 8 ensures |x| == 8 && x[k] == MaskBits(c, b)[k] {
      AvailAt(c, i, i + 8, k);
      MaskBitsAt(c, b, k);
    }
    assert x == MaskBits(c, b);
  }

  lemma MaskBitsAt(c: CoinRecord, b: nat, k: nat)
    requires k < 8
    ensures MaskBits(c, b)[k] == c.IsAvailable(2 + 8 * b + k)
  {
  }

  lemma {:induction false} AvailStep(c: CoinRecord, i: nat, k: nat, e: nat)
    requires i + k <= e
    ensures Avail(c, i, e) == Avail(c, i, i + k) + Avail(c, i + k, e)
    decreases k
  {
    if k == 0 {
      assert Avail(c, i, i) == [];
    } else {
      AvailStep(c, i + 1, k - 1, e);
      assert Avail(c, i, i + k) == [c.IsAvailable(i)] + Avail(c, i + 1, i + k);
    }
  }

  lemma {:induction false} AvailAt(c: CoinRecord, i: nat, e: nat, k: nat)
    requires i + k < e
    ensures |Avail(c, i, e)| == e - i && Avail(c, i, e)[k] == c.IsAvailable(i + k)
    decreases e - i
  {
    if i + 1 < e {
      AvailAt(c, i + 1, e, if k > 0 then k - 1 else 0);
    } else {
      assert Avail(c, i + 1, e) == [];
    }
  }

  /** Counting nonzero bytes stops the reader at the right byte. */
  lemma {:induction false} MaskRoundTrip(c: CoinRecord, b: nat, n: nat, rest: Bytes)
    requires b <= n && (n > 0 ==> MaskByte(c, n - 1) != 0)
    ensures ReadMask(Mask(c, b, n) + rest, Nonzero(c, b, n)) == VarInt.Found(Avail(c, 2 + 8 * b, 2 + 8 * n), n - b)
    decreases n - b
  {
    hide MaskByte, BitsOf, MaskBits, ReadMask, Avail;
    if b == n {
      AvailEmpty(c, 2 + 8 * b);
      ReadMaskDone(Mask(c, b, n) + rest);
    } else {
      NonzeroLeft(c, b, n);
      MaskRoundTrip(c, b + 1, n, rest);
      assert Mask(c, b, n) + rest == [MaskByte(c, b)] + (Mask(c, b + 1, n) + rest);
      ReadMaskOne(MaskByte(c, b), Mask(c, b + 1, n) + rest, Nonzero(c, b, n));
      MaskByteBits(c, b);
      EightMore(c, b, n);
    }
  }

  lemma AvailEmpty(c: CoinRecord, i: nat)
    ensures Avail(c, i, i) == []
  {
  }

  lemma ReadMaskDone(s: Bytes)
    ensures ReadMask(s, 0) == VarInt.Found([], 0)
  {
  }

  lemma ReadMaskOne(b: Byte, s: Bytes, count: int)
    requires count > 0
    ensures ReadMask([b] + s, count) ==
            var r := ReadMask(s, if b != 0 then count - 1 else count);
            if r.Nothing? then VarInt.Nothing else VarInt.Found(BitsOf(b) + r.value, r.used + 1)
  {
    hide BitsOf;
    assert ([b] + s)[1..] == s;
  }

  lemma MaskByteBits(c: CoinRecord, b: nat)
    ensures BitsOf(MaskByte(c, b)) == MaskBits(c, b)
    ensures MaskByte(c, b) == 0 <==> forall i :: 0 <= i < 8 ==> !MaskBits(c, b)[i]
  {
    hide MaskBits, BitsOf, ByteOf;
    BitsRoundTrip(MaskBits(c, b));
  }

  // ---------- outputs ----------

  ghost predicate ValuesOk(c: CoinRecord) {
    && (forall i :: 0 <= i < |c.vout| && !c.vout[i].IsNull() ==> c.vout[i].value >= 0)
    && (forall i :: 0 <= i < |c.vout| && c.vout[i].IsNull() ==> c.vout[i] == NULL_OUT)
  }

  function Outs(sc: ScriptCodec, c: CoinRecord, i: nat): Bytes
    requires forall j :: 0 <= j < |c.vout| && !c.vout[j].IsNull() ==> c.vout[j].value >= 0
    decreases |c.vout| - i
  {
    if i >= |c.vout| then []
    else (if c.vout[i].IsNull() then [] else EncodeOut(sc, c.vout[i])) + Outs(sc, c, i + 1)
  }

  function ReadOuts(sc: ScriptCodec, s: Bytes, avail: seq<bool>): VarInt.Found<seq<TxOut>>
    decreases |avail|
  {
    if |avail| == 0 then VarInt.Found([], 0)
    else if !avail[0] then
      var r := ReadOuts(sc, s, avail[1..]);
      if r.Nothing? then VarInt.Nothing else VarInt.Found([NULL_OUT] + r.value, r.used)
    else
      var o := DecodeOut(sc, s);
      if o.Nothing? || o.used > |s| then VarInt.Nothing
      else
        var r := ReadOuts(sc, s[o.used..], avail[1..]);
        if r.Nothing? then VarInt.Nothing else VarInt.Found([o.value] + r.value, o.used + r.used)
  }

  /** Outputs i to n - 1, spent and missing ones blank. */
  function Padded(c: CoinRecord, i: nat, n: nat): seq<TxOut>
    decreases n - i
  {
    if i >= n then [] else [if c.IsAvailable(i) then c.vout[i] else NULL_OUT] + Padded(c, i + 1, n)
  }

  lemma {:induction false} NoOuts(sc: ScriptCodec, c: CoinRecord, i: nat)
    requires ValuesOk(c) && forall j: nat :: j >= i ==> !c.IsAvailable(j)
    ensures Outs(sc, c, i) == []
    decreases |c.vout| - i
  {
    if i < |c.vout| {
      assert !c.IsAvailable(i);
      NoOuts(sc, c, i + 1);
    }
  }

  lemma {:induction false} OutsRoundTrip(sc: ScriptCodec, c: CoinRecord, i: nat, n: nat, rest: Bytes)
    requires sc.SelfDelimiting() && ValuesOk(c) && i <= n
    requires forall j: nat :: j >= n ==> !c.IsAvailable(j)
    ensures ReadOuts(sc, Outs(sc, c, i) + rest, Avail(c, i, n)) == VarInt.Found(Padded(c, i, n), |Outs(sc, c, i)|)
    decreases n - i
  {
    hide EncodeOut, DecodeOut;
    if i == n {
      NoOuts(sc, c, i);
    } else {
      OutsRoundTrip(sc, c, i + 1, n, rest);
      assert Avail(c, i, n)[1..] == Avail(c, i + 1, n);
      if c.IsAvailable(i) {
        var tail := Outs(sc, c, i + 1) + rest;
        OutRoundTrip(sc, c.vout[i], tail);
        var e := EncodeOut(sc, c.vout[i]);
        assert Outs(sc, c, i) + rest == e + tail;
        assert (e + tail)[|e|..] == tail;
      } else {
        SkipOut(sc, c, i);
      }
    }
  }

  lemma SkipOut(sc: ScriptCodec, c: CoinRecord, i: nat)
    requires ValuesOk(c) && !c.IsAvailable(i)
    ensures Outs(sc, c, i) == Outs(sc, c, i + 1)
  {
  }

  lemma {:induction false} PaddedAt(c: CoinRecord, i: nat, n: nat, k: nat)
    requires i + k < n
    ensures |Padded(c, i, n)| == n - i
    ensures Padded(c, i, n)[k] == if c.IsAvailable(i + k) then c.vout[i + k] else NULL_OUT
    decreases n - i
  {
    if i + 1 < n {
      PaddedAt(c, i + 1, n, if k > 0 then k - 1 else 0);
    } else {
      assert Padded(c, i + 1, n) == [];
    }
  }

  /** Unspent outputs of s are unspent outputs of t, and spent ones are blank. */
  ghost predicate Within(s: seq<TxOut>, t: seq<TxOut>) {
    forall k :: 0 <= k < |s| ==> if s[k].IsNull() then s[k] == NULL_OUT else k < |t| && t[k] == s[k]
  }

  lemma TrimShorter(s: seq<TxOut>, t: seq<TxOut>)
    requires Within(s, t)
    ensures |Trim(s)| <= |Trim(t)|
  {
    var a := Trim(s);
    if |a| > 0 {
      assert s[|a| - 1] == a[|a| - 1];
    }
  }

  lemma TrimSame(s: seq<TxOut>, t: seq<TxOut>)
    requires Within(s, t) && Within(t, s)
    ensures Trim(s) == Trim(t)
  {
    TrimShorter(s, t);
    TrimShorter(t, s);
    var a, b := Trim(s), Trim(t);
    forall k | 0 <= k < |a| ensures a[k] == b[k] {
      assert a[k] == s[k] && b[k] == t[k];
    }
  }

  /** Padding adds blanks at the end only, which trimming removes. */
  lemma TrimPadded(c: CoinRecord, n: nat)
    requires ValuesOk(c) && forall j: nat :: j >= n ==> !c.IsAvailable(j)
    ensures Trim(Padded(c, 0, n)) == Trim(c.vout)
  {
    hide Trim, Padded;
    var p := Padded(c, 0, n);
    PaddedLength(c, n);
    forall k | 0 <= k < n ensures p[k] == if c.IsAvailable(k) then c.vout[k] else NULL_OUT {
      PaddedAt(c, 0, n, k);
    }
    assert Within(p, c.vout);
    forall k | 0 <= k < |c.vout| && !c.vout[k].IsNull() ensures k < n {
      assert c.IsAvailable(k);
    }
    assert Within(c.vout, p);
    TrimSame(p, c.vout);
  }

  lemma PaddedLength(c: CoinRecord, n: nat)
    ensures |Padded(c, 0, n)| == n
  {
    if n > 0 {
      PaddedAt(c, 0, n, 0);
    }
  }

  // ---------- the whole record ----------

  /** Mask bytes that could be needed: those that cover an output. */
  function MaskRoom(c: CoinRecord): nat {
    if |c.vout| <= 2 then 0 else (|c.vout| + 5) / 8
  }

  /** One past the last nonzero byte among the first b. */
  function LastUsed(c: CoinRecord, b: nat): (r: nat)
    ensures r <= b && (r > 0 ==> MaskByte(c, r - 1) != 0)
  {
    if b == 0 then 0 else if MaskByte(c, b - 1) != 0 then b else LastUsed(c, b - 1)
  }

  function MaskSize(c: CoinRecord): nat { LastUsed(c, MaskRoom(c)) }

  lemma {:induction false} ZeroBeyond(c: CoinRecord, b: nat, k: nat)
    requires LastUsed(c, b) <= k < b
    ensures MaskByte(c, k) == 0
  {
    hide MaskByte;
    if k < b - 1 {
      ZeroBeyond(c, b - 1, k);
    }
  }

  lemma MaskSizeEnds(c: CoinRecord)
    ensures MaskEnds(c, MaskSize(c))
  {
    hide MaskByte, LastUsed, MaskBits;
    forall i: nat | i >= 2 + 8 * MaskSize(c) ensures !c.IsAvailable(i) {
      var b, k := (i - 2) / 8, (i - 2) % 8;
      assert i == 2 + 8 * b + k;
      if b < MaskRoom(c) {
        ZeroBeyond(c, MaskRoom(c), b);
        MaskByteBits(c, b);
        MaskBitsAt(c, b, k);
      }
    }
  }

  lemma {:induction false} NonzeroAppend(c: CoinRecord, b: nat, n: nat)
    requires b <= n
    ensures Nonzero(c, b, n + 1) == Nonzero(c, b, n) + (if MaskByte(c, n) != 0 then 1 else 0)
    decreases n - b
  {
    hide MaskByte;
    if b < n {
      NonzeroAppend(c, b + 1, n);
    } else {
      assert Nonzero(c, b + 1, n + 1) == 0;
    }
  }

  lemma {:induction false} NonzeroUpToLast(c: CoinRecord, b: nat)
    ensures Nonzero(c, 0, b) == Nonzero(c, 0, LastUsed(c, b))
  {
    hide MaskByte;
    if b > 0 && MaskByte(c, b - 1) == 0 {
      NonzeroUpToLast(c, b - 1);
      NonzeroAppend(c, 0, b - 1);
    }
  }

  method CalcMaskSize(c: CoinRecord) returns (nBytes: nat, nNonzeroBytes: nat)
    ensures nBytes == MaskSize(c) && nNonzeroBytes == Nonzero(c, 0, MaskSize(c))
  {
    hide MaskByte;
    nBytes, nNonzeroBytes := 0, 0;
    var b := 0;
    while 2 + b * 8 < |c.vout|
      invariant 0 <= b <= MaskRoom(c) && nBytes == LastUsed(c, b) && nNonzeroBytes == Nonzero(c, 0, b)
      decreases |c.vout| - b * 8
    {
      var fZero := IsZeroByte(c, b);
      NonzeroAppend(c, 0, b);
      if !fZero {
        nBytes := b + 1;
        nNonzeroBytes := nNonzeroBytes + 1;
      }
      b := b + 1;
    }
    NonzeroUpToLast(c, b);
  }

  method IsZeroByte(c: CoinRecord, b: nat) returns (fZero: bool)
    ensures fZero <==> MaskByte(c, b) == 0
  {
    hide MaskByte, MaskBits;
    fZero := true;
    var i := 0;
    MaskByteBits(c, b);
    while i < 8 && 2 + b * 8 + i < |c.vout|
      invariant 0 <= i <= 8
      invariant fZero <==> forall k :: 0 <= k < i ==> !MaskBits(c, b)[k]
    {
      MaskBitsAt(c, b, i);
      if !c.vout[2 + b * 8 + i].IsNull() {
        fZero := false;
      }
      i := i + 1;
    }
    forall k | i <= k < 8 ensures !MaskBits(c, b)[k] {
      MaskBitsAt(c, b, k);
    }
  }

  function CodeWord(c: CoinRecord, nonzero: int): int {
    var first, second := c.IsAvailable(0), c.IsAvailable(1);
    8 * (nonzero - if first || second then 0 else 1)
    + (if c.coinBase then 1 else 0) + (if first then 2 else 0) + (if second then 4 else 0)
  }

  function Encode(sc: ScriptCodec, c: CoinRecord): Bytes
    requires forall j :: 0 <= j < |c.vout| && !c.vout[j].IsNull() ==> c.vout[j].value >= 0
  {
    VarInt.Encode(c.version) + VarInt.Encode(CodeWord(c, Nonzero(c, 0, MaskSize(c))))
    + Mask(c, 0, MaskSize(c)) + Outs(sc, c, 0) + VarInt.Encode(c.height)
  }

  /** What follows in the stream. */
  function Drop(s: Bytes, n: nat): Bytes {
    if n <= |s| then s[n..] else []
  }

  function MaskCode(code: int): int { code / 8 + if code / 2 % 4 != 0 then 0 else 1 }

  function Decode(sc: ScriptCodec, s: Bytes): VarInt.Found<CoinRecord> {
    var version := VarInt.Decode(s);
    if version.Nothing? then VarInt.Nothing else
    var s1 := Drop(s, version.used);
    var code := VarInt.Decode(s1);
    if code.Nothing? then VarInt.Nothing else
    var s2 := Drop(s1, code.used);
    var mask := ReadMask(s2, MaskCode(code.value));
    if mask.Nothing? then VarInt.Nothing else
    var s3 := Drop(s2, mask.used);
    var outs := ReadOuts(sc, s3, [code.value / 2 % 2 == 1, code.value / 4 % 2 == 1] + mask.value);
    if outs.Nothing? then VarInt.Nothing else
    var s4 := Drop(s3, outs.used);
    var height := VarInt.Decode(s4);
    if height.Nothing? then VarInt.Nothing else
    VarInt.Found(CoinRecord(code.value % 2 == 1, Trim(outs.value), height.value, version.value),
                 version.used + code.used + mask.used + outs.used + height.used)
  }

  lemma ReadNumber(n: int, rest: Bytes)
    ensures VarInt.Decode(VarInt.Encode(n) + rest) == VarInt.Found(VarInt.Kept(n), |VarInt.Encode(n)|)
    ensures Drop(VarInt.Encode(n) + rest, |VarInt.Encode(n)|) == rest
  {
    hide VarInt.Encode, VarInt.Decode;
    VarInt.RoundTripKept(n, rest);
  }

  lemma CodeWordParts(c: CoinRecord, nonzero: nat)
    requires c.IsAvailable(0) || c.IsAvailable(1) || nonzero >= 1
    ensures var code := CodeWord(c, nonzero);
            && code >= 0 && MaskCode(code) == nonzero && (code % 2 == 1 <==> c.coinBase)
            && (code / 2 % 2 == 1 <==> c.IsAvailable(0)) && (code / 4 % 2 == 1 <==> c.IsAvailable(1))
  {
    var first, second := c.IsAvailable(0), c.IsAvailable(1);
    var n := nonzero - if first || second then 0 else 1;
    var code := CodeWord(c, nonzero);
    assert code / 8 == n;
    assert code / 4 == 2 * n + (if second then 1 else 0);
    assert code / 2 == 4 * n + (if second then 2 else 0) + (if first then 1 else 0);
  }

  lemma SomethingToWrite(c: CoinRecord)
    requires !c.IsPruned()
    ensures c.IsAvailable(0) || c.IsAvailable(1) || Nonzero(c, 0, MaskSize(c)) >= 1
  {
    hide MaskByte, Nonzero, LastUsed;
    MaskSizeEnds(c);
    var i :| 0 <= i < |c.vout| && !c.vout[i].IsNull();
    assert c.IsAvailable(i);
    if i >= 2 {
      NonzeroLeft(c, 0, MaskSize(c));
    }
  }

  /** Reading back a record with an unspent output gives its cleaned-up form and takes exactly
      the bytes written; a negative version or height is cut to seven bits. */
  lemma RecordRoundTrip(sc: ScriptCodec, c: CoinRecord, rest: Bytes)
    requires sc.SelfDelimiting() && ValuesOk(c) && !c.IsPruned()
    ensures Decode(sc, Encode(sc, c) + rest) ==
            VarInt.Found(c.(vout := Trim(c.vout), version := VarInt.Kept(c.version), height := VarInt.Kept(c.height)), |Encode(sc, c)|)
  {
    hide VarInt.Encode, VarInt.Decode, ReadMask, ReadOuts, Mask, Outs, Trim, Padded, CodeWord, MaskCode, Nonzero,
      LastUsed, MaskByte, Avail, Drop, VarInt.Kept, MaskSize, ScriptCodec.SelfDelimiting;
    var m := MaskSize(c);
    var nonzero := Nonzero(c, 0, m);
    var code := CodeWord(c, nonzero);
    MaskSizeEnds(c);
    SomethingToWrite(c);
    CodeWordParts(c, nonzero);
    var v, w, h := VarInt.Encode(c.version), VarInt.Encode(code), VarInt.Encode(c.height);
    var mask, outs := Mask(c, 0, m), Outs(sc, c, 0);
    var s4 := h + rest;
    var s3 := outs + s4;
    var s2 := mask + s3;
    var s1 := w + s2;
    assert Encode(sc, c) + rest == v + s1;
    ReadNumber(c.version, s1);
    ReadNumber(code, s2);
    MaskRoundTrip(c, 0, m, s3);
    MaskLength(c, 0, m);
    DropPrefix(mask, s3);
    FirstTwo(c, 2 + 8 * m);
    OutsRoundTrip(sc, c, 0, 2 + 8 * m, s4);
    DropPrefix(outs, s4);
    ReadNumber(c.height, rest);
    TrimPadded(c, 2 + 8 * m);
  }

  lemma {:induction false} MaskLength(c: CoinRecord, b: nat, n: nat)
    requires b <= n
    ensures |Mask(c, b, n)| == n - b
    decreases n - b
  {
    if b < n {
      MaskLength(c, b + 1, n);
    }
  }

  lemma DropPrefix(a: Bytes, b: Bytes)
    ensures Drop(a + b, |a|) == b
  {
  }

  lemma FirstTwo(c: CoinRecord, n: nat)
    requires n >= 2
    ensures Avail(c, 0, n) == [c.IsAvailable(0), c.IsAvailable(1)] + Avail(c, 2, n)
  {
    assert Avail(c, 0, n) == [c.IsAvailable(0)] + Avail(c, 1, n);
  }

  /** So the stored form is faithful exactly for natural versions and heights. */
  lemma FaithfulIff(sc: ScriptCodec, c: CoinRecord, rest: Bytes)
    requires sc.SelfDelimiting() && ValuesOk(c) && !c.IsPruned()
    ensures Decode(sc, Encode(sc, c) + rest) == VarInt.Found(c.(vout := Trim(c.vout)), |Encode(sc, c)|)
            <==> c.version >= 0 && c.height >= 0
  {
    hide Decode, Encode, Trim, ScriptCodec.SelfDelimiting;
    RecordRoundTrip(sc, c, rest);
  }

  /** What the database gives back of a record it holds. */
  lemma StoredRecordIsReadBack(sc: ScriptCodec, c: CoinRecord, rest: Bytes)
    requires sc.SelfDelimiting() && ValuesOk(c) && c.IsTidy() && !c.IsPruned() && c.height >= 0
    ensures Decode(sc, Encode(sc, c) + rest) == VarInt.Found(StoredRecord(c), |Encode(sc, c)|)
  {
    hide Decode, Encode, ScriptCodec.SelfDelimiting;
    RecordRoundTrip(sc, c, rest);
  }

  // ---------- the code ----------

  lemma {:induction false} MaskAppend(c: CoinRecord, b: nat, n: nat)
    requires b <= n
    ensures Mask(c, b, n + 1) == Mask(c, b, n) + [MaskByte(c, n)]
    decreases n - b
  {
    hide MaskByte;
    if b < n {
      MaskAppend(c, b + 1, n);
    } else {
      assert Mask(c, b + 1, n + 1) == [];
    }
  }

  /** Outputs before i, as Outs gives those from i on. */
  lemma OutsFrom(sc: ScriptCodec, c: CoinRecord, i: nat)
    requires ValuesOk(c) && i < |c.vout|
    ensures Outs(sc, c, i) == (if c.vout[i].IsNull() then [] else EncodeOut(sc, c.vout[i])) + Outs(sc, c, i + 1)
  {
  }

  method Serialize(sc: ScriptCodec, c: CoinRecord) returns (s: Bytes)
    requires ValuesOk(c) && !c.IsPruned()
    ensures s == Encode(sc, c)
  {
    hide VarInt.Encode, Mask, Outs, MaskByte, Nonzero, LastUsed;
    var nMaskSize, nMaskCode := CalcMaskSize(c);
    SomethingToWrite(c);
    var nCode := CodeWord(c, nMaskCode);
    var version := VarInt.WriteVarInt(c.version);
    var code := VarInt.WriteVarInt(nCode);
    var mask: Bytes := [];
    MaskLength(c, 0, 0);
    for b := 0 to nMaskSize
      invariant mask == Mask(c, 0, b)
    {
      var chAvail := AvailByte(c, b);
      MaskAppend(c, 0, b);
      mask := mask + [chAvail];
    }
    var outs := WriteOuts(sc, c);
    var height := VarInt.WriteVarInt(c.height);
    s := version + code + mask + outs + height;
  }

  /** Sets bit i of the byte for every unspent output. */
  method AvailByte(c: CoinRecord, b: nat) returns (chAvail: Byte)
    ensures chAvail == MaskByte(c, b)
  {
    var bits: seq<bool> := [];
    for i := 0 to 8
      invariant |bits| == i && forall k :: 0 <= k < i ==> bits[k] == c.IsAvailable(2 + 8 * b + k)
    {
      bits := bits + [2 + b * 8 + i < |c.vout| && !c.vout[2 + b * 8 + i].IsNull()];
    }
    assert bits == MaskBits(c, b);
    chAvail := ByteOf(bits);
  }

  method WriteOuts(sc: ScriptCodec, c: CoinRecord) returns (outs: Bytes)
    requires ValuesOk(c)
    ensures outs == Outs(sc, c, 0)
  {
    hide Outs, EncodeOut;
    outs := [];
    for i := 0 to |c.vout|
      invariant outs + Outs(sc, c, i) == Outs(sc, c, 0)
    {
      ghost var was := outs;
      OutsFrom(sc, c, i);
      if !c.vout[i].IsNull() {
        outs := outs + EncodeOut(sc, c.vout[i]);
        assert was + (EncodeOut(sc, c.vout[i]) + Outs(sc, c, i + 1)) == outs + Outs(sc, c, i + 1);
      } else {
        assert [] + Outs(sc, c, i + 1) == Outs(sc, c, i + 1);
      }
    }
    NoOutsLeft(sc, c);
  }

  lemma NoOutsLeft(sc: ScriptCodec, c: CoinRecord)
    requires ValuesOk(c)
    ensures Outs(sc, c, |c.vout|) == []
  {
  }

  method Unserialize(sc: ScriptCodec, s: Bytes) returns (r: VarInt.Found<CoinRecord>)
    ensures r == Decode(sc, s)
  {
    hide VarInt.Decode, ReadMask, ReadOuts, Drop, MaskCode, Trim;
    var version := VarInt.ReadVarInt(s);
    if version.Nothing? {
      return VarInt.Nothing;
    }
    var rest := Drop(s, version.used);
    var code := VarInt.ReadVarInt(rest);
    if code.Nothing? {
      return VarInt.Nothing;
    }
    rest := Drop(rest, code.used);
    var mask := UnserializeMask(rest, MaskCode(code.value));
    if mask.Nothing? {
      return VarInt.Nothing;
    }
    rest := Drop(rest, mask.used);
    var vAvail := [code.value / 2 % 2 == 1, code.value / 4 % 2 == 1] + mask.value;
    var outs := UnserializeOuts(sc, rest, vAvail);
    if outs.Nothing? {
      return VarInt.Nothing;
    }
    rest := Drop(rest, outs.used);
    var height := VarInt.ReadVarInt(rest);
    if height.Nothing? {
      return VarInt.Nothing;
    }
    var c := Cleanup(CoinRecord(code.value % 2 == 1, outs.value, height.value, version.value));
    r := VarInt.Found(c, version.used + code.used + mask.used + outs.used + height.used);
  }

  method UnserializeMask(s: Bytes, count: int) returns (r: VarInt.Found<seq<bool>>)
    ensures r == ReadMask(s, count)
  {
    hide BitsOf;
    var vAvail: seq<bool>, nMaskCode, at: nat := [], count, 0;
    assert s[0..] == s;
    assert ReadMask(s, count).Found? ==> [] + ReadMask(s, count).value == ReadMask(s, count).value;
    while nMaskCode > 0
      invariant at <= |s|
      invariant ReadMask(s, count) ==
                var q := ReadMask(s[at..], nMaskCode);
                if q.Nothing? then VarInt.Nothing else VarInt.Found(vAvail + q.value, q.used + at)
      decreases |s| - at
    {
      if at == |s| {
        return VarInt.Nothing;
      }
      var chAvail := s[at];
      assert s[at..][1..] == s[at + 1..];
      ghost var q := ReadMask(s[at + 1..], if chAvail != 0 then nMaskCode - 1 else nMaskCode);
      assert q.Found? ==> vAvail + (BitsOf(chAvail) + q.value) == vAvail + BitsOf(chAvail) + q.value;
      vAvail := vAvail + BitsOf(chAvail);
      if chAvail != 0 {
        nMaskCode := nMaskCode - 1;
      }
      at := at + 1;
    }
    assert vAvail + [] == vAvail;
    r := VarInt.Found(vAvail, at);
  }

  method UnserializeOuts(sc: ScriptCodec, s: Bytes, vAvail: seq<bool>) returns (r: VarInt.Found<seq<TxOut>>)
    ensures r == ReadOuts(sc, s, vAvail)
  {
    hide DecodeOut;
    var vout: seq<TxOut>, rest, used: nat := [], s, 0;
    assert vAvail[0..] == vAvail;
    assert ReadOuts(sc, s, vAvail).Found? ==> [] + ReadOuts(sc, s, vAvail).value == ReadOuts(sc, s, vAvail).value;
    for i := 0 to |vAvail|
      invariant ReadOuts(sc, s, vAvail) ==
                var q := ReadOuts(sc, rest, vAvail[i..]);
                if q.Nothing? then VarInt.Nothing else VarInt.Found(vout + q.value, q.used + used)
    {
      assert vAvail[i..][1..] == vAvail[i + 1..];
      ghost var was := vout;
      if vAvail[i] {
        var o := DecodeOut(sc, rest);
        if o.Nothing? || o.used > |rest| {
          return VarInt.Nothing;
        }
        rest, used, vout := rest[o.used..], used + o.used, vout + [o.value];
      } else {
        vout := vout + [NULL_OUT];
      }
      ghost var q := ReadOuts(sc, rest, vAvail[i + 1..]);
      assert q.Found? ==> was + ([vout[|was|]] + q.value) == vout + q.value;
    }
    assert vout + [] == vout;
    r := VarInt.Found(vout, used);
  }
}
