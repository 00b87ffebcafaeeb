/** The partial Merkle tree object, its wire form with flag bits packed eight to a byte,
    and the two theorems about it: nothing is lost on the way, and nothing false is proved.
    (src/main.h, lines 1206-1266; src/main.cpp, lines 2378-2473) */
module PartialMerkleWire {
  import opened Basics
  import opened Merkle
  import opened PartialMerkle

  // ---------- packing bits into bytes ----------

  /** 1 << k for the eight bits of a byte. */
  function Mask(k: nat): bv8
    requires k < 8
  {
    if k == 0 then 1 else if k == 1 then 2 else if k == 2 then 4 else if k == 3 then 8
    else if k == 4 then 16 else if k == 5 then 32 else if k == 6 then 64 else 128
  }

  predicate TestBit(b: bv8, k: nat)
    requires k < 8
  {
    b & Mask(k) != 0
  }

  lemma OrSetsOneBit(b: bv8, k: nat, j: nat)
    requires k < 8 && j < 8
    ensures TestBit(b | Mask(k), j) <==> j == k || TestBit(b, j)
  {
    assert (b | Mask(k)) & Mask(j) == (b & Mask(j)) | (Mask(k) & Mask(j));
    MasksDisjoint(k, j);
  }

  lemma MasksDisjoint(k: nat, j: nat)
    requires k < 8 && j < 8
    ensures Mask(k) & Mask(j) == if k == j then Mask(k) else 0
    ensures Mask(k) != 0
  {
  }

  function ByteCount(bits: nat): nat { (bits + 7) / 8 }

  /** Bit p of a byte string, least significant bit first. */
  predicate BitAt(bytes: seq<bv8>, p: nat)
    requires p < 8 * |bytes|
  {
    TestBit(bytes[p / 8], p % 8)
  }

  method Pack(bits: seq<bool>) returns (bytes: seq<bv8>)
    ensures |bytes| == ByteCount(|bits|)
    ensures forall p :: 0 <= p < 8 * |bytes| ==> (BitAt(bytes, p) <==> p < |bits| && bits[p])
  {
    bytes := seq(ByteCount(|bits|), _ => 0 as bv8);
    assert forall q :: 0 <= q < 8 * |bytes| ==> !BitAt(bytes, q);
    for p := 0 to |bits|
      invariant |bytes| == ByteCount(|bits|)
      invariant forall q :: 0 <= q < 8 * |bytes| ==> (BitAt(bytes, q) <==> q < p && bits[q])
    {
      ghost var was := bytes;
      bytes := bytes[p / 8 := bytes[p / 8] | if bits[p] then Mask(p % 8) else 0];
      forall q | 0 <= q < 8 * |bytes| ensures BitAt(bytes, q) <==> q < p + 1 && bits[q] {
        assert BitAt(was, q) <==> q < p && bits[q];
        OneByteChanged(was, bytes, p, bits[p], q);
      }
    }
  }

  lemma OneByteChanged(was: seq<bv8>, now: seq<bv8>, p: nat, bit: bool, q: nat)
    requires p < 8 * |was| && now == was[p / 8 := was[p / 8] | if bit then Mask(p % 8) else 0] && q < 8 * |was|
    ensures BitAt(now, q) <==> (q == p && bit) || BitAt(was, q)
  {
    if q / 8 == p / 8 {
      if bit {
        OrSetsOneBit(was[p / 8], p % 8, q % 8);
      } else {
        assert was[p / 8] | 0 == was[p / 8];
      }
    }
  }

  method Unpack(bytes: seq<bv8>) returns (bits: seq<bool>)
    ensures |bits| == 8 * |bytes|
    ensures forall p :: 0 <= p < |bits| ==> bits[p] == BitAt(bytes, p)
  {
    bits := [];
    for p := 0 to 8 * |bytes|
      invariant |bits| == p
      invariant forall q :: 0 <= q < p ==> bits[q] == BitAt(bytes, q)
    {
      bits := bits + [bytes[p / 8] & Mask(p % 8) != 0];
    }
  }

  /** The wire form of a tree. */
  datatype Wire = Wire(nTransactions: nat, hashes: seq<Hash>, flags: seq<bv8>)

  // ---------- the object ----------

  class PartialMerkleTree {
    var nTransactions: nat
    var vBits: seq<bool>
    var vHash: seq<Hash>
    var fBad: bool

    constructor FromBlock(h: PairHash, txids: seq<Hash>, match_: seq<bool>)
      requires |txids| == |match_| && txids != []
      ensures nTransactions == |txids| && !fBad
      ensures vBits == RootBits(match_) && vHash == RootHashes(h, txids, match_)
    {
      nTransactions := |txids|;
      fBad := false;
      vBits, vHash := [], [];
      new;
      WidthPositive(|txids|, TreeHeight(|txids|));
      var height := CalcHeight(nTransactions);
      TraverseAndBuild(h, height, 0, txids, match_);
    }

    constructor FromWire(w: Wire)
      ensures nTransactions == w.nTransactions && vHash == w.hashes && !fBad
      ensures |vBits| == 8 * |w.flags| && forall p :: 0 <= p < |vBits| ==> vBits[p] == BitAt(w.flags, p)
    {
      var bits := Unpack(w.flags);
      nTransactions, vHash, vBits, fBad := w.nTransactions, w.hashes, bits, false;
    }

    method Serialize() returns (w: Wire)
      ensures w.nTransactions == nTransactions && w.hashes == vHash
      ensures |w.flags| == ByteCount(|vBits|)
      ensures forall p :: 0 <= p < 8 * |w.flags| ==> (BitAt(w.flags, p) <==> p < |vBits| && vBits[p])
    {
      var flags := Pack(vBits);
      w := Wire(nTransactions, vHash, flags);
    }

    method TraverseAndBuild(h: PairHash, height: nat, pos: nat, txids: seq<Hash>, match_: seq<bool>)
      requires |txids| == |match_| == nTransactions && pos < Width(nTransactions, height)
      modifies this`vBits, this`vHash
      ensures vBits == old(vBits) + BuildBits(match_, height, pos)
      ensures vHash == old(vHash) + BuildHashes(h, txids, match_, height, pos)
      decreases height
    {
      hide CalcHash, AnyBelow, CalcTreeWidth, BuildBits, BuildHashes;
      var any := ParentOfMatch(match_, height, pos);
      ghost var bits, hashes := vBits, vHash;
      vBits := vBits + [any];
      if height == 0 || !any {
        LeafRecord(h, txids, match_, height, pos);
        vHash := vHash + [CalcHash(h, txids, height, pos)];
      } else {
        InnerRecord(h, txids, match_, height, pos);
        Associate(bits, [true], BuildBits(match_, height - 1, 2 * pos), RightBits(match_, height, pos));
        Associate(hashes, [], BuildHashes(h, txids, match_, height - 1, 2 * pos), RightHashes(h, txids, match_, height, pos));
        TraverseAndBuild(h, height - 1, 2 * pos, txids, match_);
        ClosedWidth(nTransactions, height - 1);
        if 2 * pos + 1 < CalcTreeWidth(nTransactions, height - 1) {
          TraverseAndBuild(h, height - 1, 2 * pos + 1, txids, match_);
        }
      }
    }

    method TraverseAndExtract(h: PairHash, height: nat, pos: nat, nBitsUsed: nat, nHashUsed: nat, vMatch: seq<Hash>)
      returns (hash: Hash, bitsUsed: nat, hashUsed: nat, matched: seq<Hash>)
      modifies this`fBad
      ensures var e := Extract(h, nTransactions, vBits, vHash, height, pos, nBitsUsed, nHashUsed);
              && hash == e.hash && bitsUsed == e.bits && hashUsed == e.hashes && matched == vMatch + e.matched
              && fBad == (old(fBad) || e.bad)
      decreases height
    {
      hide CalcTreeWidth, Width;
      bitsUsed, hashUsed, matched := nBitsUsed, nHashUsed, vMatch;
      if bitsUsed >= |vBits| {
        fBad := true;
        return 0, bitsUsed, hashUsed, matched;
      }
      var parentOfMatch := vBits[bitsUsed];
      bitsUsed := bitsUsed + 1;
      if height == 0 || !parentOfMatch {
        if hashUsed >= |vHash| {
          fBad := true;
          return 0, bitsUsed, hashUsed, matched;
        }
        hash := vHash[hashUsed];
        hashUsed := hashUsed + 1;
        if height == 0 && parentOfMatch {
          matched := matched + [hash];
        }
      } else {
        ghost var l := Extract(h, nTransactions, vBits, vHash, height - 1, 2 * pos, bitsUsed, hashUsed);
        ghost var r := Extract(h, nTransactions, vBits, vHash, height - 1, 2 * pos + 1, l.bits, l.hashes);
        Associate(vMatch, [], l.matched, r.matched);
        var left;
        left, bitsUsed, hashUsed, matched := TraverseAndExtract(h, height - 1, 2 * pos, bitsUsed, hashUsed, matched);
        var right := left;
        ClosedWidth(nTransactions, height - 1);
        if 2 * pos + 1 < CalcTreeWidth(nTransactions, height - 1) {
          right, bitsUsed, hashUsed, matched := TraverseAndExtract(h, height - 1, 2 * pos + 1, bitsUsed, hashUsed, matched);
        }
        hash := h(left, right);
      }
    }

    method ExtractMatches(h: PairHash) returns (root: Hash, matched: seq<Hash>)
      modifies this`fBad
      ensures var r := Matches(h, nTransactions, vBits, vHash, old(fBad));
              root == (if r.Refused? then 0 else r.root) && (r.Accepted? ==> matched == r.matched)
    {
      hide Extract;
      matched := [];
      if nTransactions == 0 || nTransactions > MAX_TRANSACTIONS || |vHash| > nTransactions || |vBits| < |vHash| {
        return 0, matched;
      }
      var height := CalcHeight(nTransactions);
      var bitsUsed, hashUsed;
      root, bitsUsed, hashUsed, matched := TraverseAndExtract(h, height, 0, 0, 0, matched);
      if fBad || ByteCount(bitsUsed) != ByteCount(|vBits|) || hashUsed != |vHash| {
        root := 0;
      }
    }
  }

  lemma LeafRecord(h: PairHash, txids: seq<Hash>, match_: seq<bool>, height: nat, pos: nat)
    requires |txids| == |match_| && pos < Width(|match_|, height) && (height == 0 || !AnyBelow(match_, height, pos))
    ensures BuildBits(match_, height, pos) == [AnyBelow(match_, height, pos)]
    ensures BuildHashes(h, txids, match_, height, pos) == [CalcHash(h, txids, height, pos)]
  {
  }

  lemma Associate<T>(a: seq<T>, b: seq<T>, c: seq<T>, d: seq<T>)
    ensures a + b + c + d == a + (b + (c + d))
    ensures a + b + c == a + (b + c) && c + [] == c && a + [] == a && [] + c == c
    ensures b == [] ==> a + b + c + d == a + (c + d) && a + c + d == a + (c + d)
  {
  }

  function RootBits(match_: seq<bool>): seq<bool>
    requires match_ != []
  {
    WidthPositive(|match_|, TreeHeight(|match_|));
    BuildBits(match_, TreeHeight(|match_|), 0)
  }

  function RootHashes(h: PairHash, txids: seq<Hash>, match_: seq<bool>): seq<Hash>
    requires match_ != [] && |txids| == |match_|
  {
    WidthPositive(|match_|, TreeHeight(|match_|));
    BuildHashes(h, txids, match_, TreeHeight(|match_|), 0)
  }

  datatype MatchResult = Refused | Accepted(root: Hash, matched: seq<Hash>)

  /** What ExtractMatches recovers, if it accepts the tree. */
  function Matches(h: PairHash, n: nat, vBits: seq<bool>, vHash: seq<Hash>, bad: bool): MatchResult {
    if n == 0 || n > MAX_TRANSACTIONS || |vHash| > n || |vBits| < |vHash| then Refused else
      var e := Extract(h, n, vBits, vHash, TreeHeight(n), 0, 0, 0);
      if bad || e.bad || ByteCount(e.bits) != ByteCount(|vBits|) || e.hashes != |vHash| then Refused
      else Accepted(e.hash, e.matched)
  }

  // ---------- the two theorems ----------

  /** Build, pack, unpack, extract: for every block of admissible size and every mask, the
      tree is accepted, its root is the block's, and the ids are exactly the masked ones. */
  lemma RoundTrip(h: PairHash, txids: seq<Hash>, match_: seq<bool>, flags: seq<bv8>, bits: seq<bool>)
    requires 0 < |txids| == |match_| <= MAX_TRANSACTIONS
    requires var b := RootBits(match_);
             && |flags| == ByteCount(|b|) && (forall p :: 0 <= p < 8 * |flags| ==> (BitAt(flags, p) <==> p < |b| && b[p]))
             && |bits| == 8 * |flags| && (forall p :: 0 <= p < |bits| ==> bits[p] == BitAt(flags, p))
    ensures Matches(h, |txids|, bits, RootHashes(h, txids, match_), false)
            == Accepted(Root(h, txids), Masked(txids, match_, 0, |txids|))
  {
    hide BuildBits, BuildHashes, CalcHash, Extract, Width, TreeHeight, MaskedBelow, Masked, BitAt;
    var n, height := |txids|, TreeHeight(|txids|);
    WidthPositive(n, height);
    var b, hs := RootBits(match_), RootHashes(h, txids, match_);
    assert forall p :: 0 <= p < |b| ==> bits[p] == (BitAt(flags, p));
    assert bits[0..|b|] == b;
    assert hs[0..|hs|] == hs;
    ExtractReadsBuild(h, txids, match_, height, 0, bits, hs, 0, 0);
    RecordSizes(h, txids, match_, height, 0);
    MaskedBelowIsRange(txids, match_, height, 0);
    RootCoversAll(n);
  }

  lemma RootCoversAll(n: nat)
    requires n > 0
    ensures Shl(0, TreeHeight(n)) == 0 && Clip(Shl(1, TreeHeight(n)), n) == n
  {
    BeyondWidth(n, TreeHeight(n), 1);
    ShlZero(TreeHeight(n));
  }

  lemma {:induction false} ShlZero(height: nat)
    ensures Shl(0, height) == 0
  {
    if height > 0 {
      ShlZero(height - 1);
    }
  }

  /** With an injective pair hash and the true transaction count, whatever bits and hashes a
      peer sends: if the recovered root is the block's, then the recovered ids are exactly
      the block's ids at the flagged leaves, in block order, each at most once. */
  lemma MatchesAreAuthentic(h: PairHash, txids: seq<Hash>, vBits: seq<bool>, vHash: seq<Hash>, bad: bool)
    requires Injective(h) && txids != []
    requires var r := Matches(h, |txids|, vBits, vHash, bad); r.Accepted? && r.root == Root(h, txids)
    ensures var ps := Flagged(|txids|, vBits, TreeHeight(|txids|), 0, 0).positions;
            && Within(ps, 0, |txids|) && Increasing(ps)
            && Matches(h, |txids|, vBits, vHash, bad).matched == Pick(txids, ps)
  {
    hide Injective, Extract, Flagged, CalcHash, TreeHeight, Width, Within, Increasing;
    WidthPositive(|txids|, TreeHeight(|txids|));
    ExtractSound(h, txids, vBits, vHash, TreeHeight(|txids|), 0, 0, 0);
    FlaggedInOrder(|txids|, vBits, TreeHeight(|txids|), 0, 0);
  }

  /** The true count is needed, and is not part of what the root proves: with count 1 the root
      of any block is accepted as the id of a transaction in it. */
  lemma RootPassesForCountOne(h: PairHash, txids: seq<Hash>, vBits: seq<bool>)
    requires txids != [] && 1 <= |vBits| <= 8 && vBits[0]
    ensures Matches(h, 1, vBits, [Root(h, txids)], false) == Accepted(Root(h, txids), [Root(h, txids)])
  {
    hide CalcHash;
    assert TreeHeight(1) == 0;
  }

  /** The whole way of a tree from a node that has the block to a peer that has not. */
  method Transfer(h: PairHash, txids: seq<Hash>, match_: seq<bool>) returns (blockRoot: Hash, root: Hash, matched: seq<Hash>)
    requires 0 < |txids| == |match_| <= MAX_TRANSACTIONS
    ensures root == blockRoot == Root(h, txids)
    ensures matched == Masked(txids, match_, 0, |txids|)
  {
    var tree;
    blockRoot, tree := BuildMerkleTree(h, txids);
    var sent := new PartialMerkleTree.FromBlock(h, txids, match_);
    var wire := sent.Serialize();
    var received := new PartialMerkleTree.FromWire(wire);
    RoundTrip(h, txids, match_, wire.flags, received.vBits);
    root, matched := received.ExtractMatches(h);
  }
}
