/** Partial Merkle trees: a depth-first record of flag bits and hashes that lets a peer
    recover the matched transaction ids of a block and the root that authenticates them
    (section "Partial Merkle branch format" of BIP 37).
    (src/main.h, CPartialMerkleTree; src/main.cpp, lines 2361-2473) */
module PartialMerkle {
  import opened Basics
  import opened Merkle

  const MAX_TRANSACTIONS := 1_000_000 / 60    // MAX_BLOCK_SIZE / 60

  // ---------- what is recorded ----------

  /** Some transaction below the node is matched. */
  predicate AnyBelow(match_: seq<bool>, height: nat, pos: nat)
    requires pos < Width(|match_|, height)
    decreases height
  {
    if height == 0 then match_[pos] else
      || AnyBelow(match_, height - 1, 2 * pos)
      || (2 * pos + 1 < Width(|match_|, height - 1) && AnyBelow(match_, height - 1, 2 * pos + 1))
  }

  function BuildBits(match_: seq<bool>, height: nat, pos: nat): (r: seq<bool>)
    requires pos < Width(|match_|, height)
    ensures |r| >= 1
    decreases height
  {
    [AnyBelow(match_, height, pos)] +
    if height == 0 || !AnyBelow(match_, height, pos) then [] else
      BuildBits(match_, height - 1, 2 * pos) +
      if 2 * pos + 1 < Width(|match_|, height - 1) then BuildBits(match_, height - 1, 2 * pos + 1) else []
  }

  function BuildHashes(h: PairHash, txids: seq<Hash>, match_: seq<bool>, height: nat, pos: nat): seq<Hash>
    requires |txids| == |match_| && pos < Width(|match_|, height)
    decreases height
  {
    if height == 0 || !AnyBelow(match_, height, pos) then [CalcHash(h, txids, height, pos)] else
      BuildHashes(h, txids, match_, height - 1, 2 * pos) +
      if 2 * pos + 1 < Width(|match_|, height - 1) then BuildHashes(h, txids, match_, height - 1, 2 * pos + 1) else []
  }

  /** The matched ids below a node, in block order. */
  function MaskedBelow(txids: seq<Hash>, match_: seq<bool>, height: nat, pos: nat): seq<Hash>
    requires |txids| == |match_| && pos < Width(|match_|, height)
    decreases height
  {
    if height == 0 then (if match_[pos] then [txids[pos]] else []) else
      MaskedBelow(txids, match_, height - 1, 2 * pos) +
      if 2 * pos + 1 < Width(|match_|, height - 1) then MaskedBelow(txids, match_, height - 1, 2 * pos + 1) else []
  }

  // ---------- what is recovered ----------

  datatype Extracted = Extracted(hash: Hash, bits: nat, hashes: nat, matched: seq<Hash>, bad: bool)

  /** Depth-first reading of bits and hashes from given positions. Running out of either
      marks the tree bad but does not stop the traversal. */
  function Extract(h: PairHash, n: nat, vBits: seq<bool>, vHash: seq<Hash>, height: nat, pos: nat, bits: nat, hashes: nat): Extracted
    decreases height
  {
    if bits >= |vBits| then Extracted(0, bits, hashes, [], true)
    else if height == 0 || !vBits[bits] then
      if hashes >= |vHash| then Extracted(0, bits + 1, hashes, [], true)
      else Extracted(vHash[hashes], bits + 1, hashes + 1, if height == 0 && vBits[bits] then [vHash[hashes]] else [], false)
    else
      var l := Extract(h, n, vBits, vHash, height - 1, 2 * pos, bits + 1, hashes);
      if 2 * pos + 1 < Width(n, height - 1) then
        var r := Extract(h, n, vBits, vHash, height - 1, 2 * pos + 1, l.bits, l.hashes);
        Join(h, l, r)
      else
        l.(hash := h(l.hash, l.hash))
  }

  function Join(h: PairHash, l: Extracted, r: Extracted): Extracted {
    Extracted(h(l.hash, r.hash), r.bits, r.hashes, l.matched + r.matched, l.bad || r.bad)
  }

  // ---------- the round trip ----------

  ghost predicate At<T>(s: seq<T>, i: nat, part: seq<T>) {
    i + |part| <= |s| && s[i..i + |part|] == part
  }

  lemma AtSplit<T>(s: seq<T>, i: nat, a: seq<T>, b: seq<T>)
    requires At(s, i, a + b)
    ensures At(s, i, a) && At(s, i + |a|, b)
  {
    var whole := s[i..i + |a + b|];
    assert whole[..|a|] == a && whole[|a|..] == b;
    assert s[i..i + |a|] == whole[..|a|];
    assert s[i + |a|..i + |a| + |b|] == whole[|a|..];
  }

  lemma {:induction false} NothingBelow(txids: seq<Hash>, match_: seq<bool>, height: nat, pos: nat)
    requires |txids| == |match_| && pos < Width(|match_|, height) && !AnyBelow(match_, height, pos)
    ensures MaskedBelow(txids, match_, height, pos) == []
    decreases height
  {
    if height > 0 {
      NothingBelow(txids, match_, height - 1, 2 * pos);
      if 2 * pos + 1 < Width(|match_|, height - 1) {
        NothingBelow(txids, match_, height - 1, 2 * pos + 1);
      }
    }
  }

  /** Reading what was recorded for a node, wherever it lies in the streams, recovers the
      node's hash and its matched ids and stops exactly behind the record. */
  lemma {:induction false} ExtractReadsBuild(h: PairHash, txids: seq<Hash>, match_: seq<bool>, height: nat, pos: nat,
                                             vBits: seq<bool>, vHash: seq<Hash>, bits: nat, hashes: nat)
    requires |txids| == |match_| && pos < Width(|match_|, height)
    requires At(vBits, bits, BuildBits(match_, height, pos)) && At(vHash, hashes, BuildHashes(h, txids, match_, height, pos))
    ensures Extract(h, |txids|, vBits, vHash, height, pos, bits, hashes) == Expected(h, txids, match_, height, pos, bits, hashes)
    decreases height
  {
    hide At, AnyBelow, BuildBits, BuildHashes, Expected, RightBits, RightHashes, Join;
    if height == 0 || !AnyBelow(match_, height, pos) {
      ReadLeaf(h, txids, match_, height, pos, vBits, vHash, bits, hashes);
    } else {
      ReadChildren(h, txids, match_, height, pos, vBits, vHash, bits, hashes);
      ExtractReadsBuild(h, txids, match_, height - 1, 2 * pos, vBits, vHash, bits + 1, hashes);
      JoinExpected(h, txids, match_, height, pos, bits, hashes);
      if 2 * pos + 1 < Width(|match_|, height - 1) {
        RightRecord(h, txids, match_, height, pos);
        ExtractReadsBuild(h, txids, match_, height - 1, 2 * pos + 1, vBits, vHash,
                          bits + 1 + |BuildBits(match_, height - 1, 2 * pos)|,
                          hashes + |BuildHashes(h, txids, match_, height - 1, 2 * pos)|);
      }
    }
  }

  /** What reading a node's own record should give. */
  function Expected(h: PairHash, txids: seq<Hash>, match_: seq<bool>, height: nat, pos: nat, bits: nat, hashes: nat): Extracted
    requires |txids| == |match_| && pos < Width(|match_|, height)
  {
    Extracted(CalcHash(h, txids, height, pos), bits + |BuildBits(match_, height, pos)|,
              hashes + |BuildHashes(h, txids, match_, height, pos)|, MaskedBelow(txids, match_, height, pos), false)
  }

  lemma RightRecord(h: PairHash, txids: seq<Hash>, match_: seq<bool>, height: nat, pos: nat)
    requires |txids| == |match_| && height > 0 && 2 * pos + 1 < Width(|match_|, height - 1)
    ensures RightBits(match_, height, pos) == BuildBits(match_, height - 1, 2 * pos + 1)
    ensures RightHashes(h, txids, match_, height, pos) == BuildHashes(h, txids, match_, height - 1, 2 * pos + 1)
  {
  }

  lemma JoinExpected(h: PairHash, txids: seq<Hash>, match_: seq<bool>, height: nat, pos: nat, bits: nat, hashes: nat)
    requires |txids| == |match_| && pos < Width(|match_|, height) && height > 0 && AnyBelow(match_, height, pos)
    ensures 2 * pos < Width(|match_|, height - 1)
    ensures var l := Expected(h, txids, match_, height - 1, 2 * pos, bits + 1, hashes);
            Expected(h, txids, match_, height, pos, bits, hashes) ==
            if 2 * pos + 1 < Width(|match_|, height - 1)
            then Join(h, l, Expected(h, txids, match_, height - 1, 2 * pos + 1, l.bits, l.hashes))
            else l.(hash := h(l.hash, l.hash))
    ensures var l := Expected(h, txids, match_, height - 1, 2 * pos, bits + 1, hashes);
            && l.bits == bits + 1 + |BuildBits(match_, height - 1, 2 * pos)|
            && l.hashes == hashes + |BuildHashes(h, txids, match_, height - 1, 2 * pos)|
  {
    hide BuildBits, BuildHashes;
    InnerRecord(h, txids, match_, height, pos);
  }

  /** The record of a node that is not descended into is its bit and its hash. */
  lemma ReadLeaf(h: PairHash, txids: seq<Hash>, match_: seq<bool>, height: nat, pos: nat,
                 vBits: seq<bool>, vHash: seq<Hash>, bits: nat, hashes: nat)
    requires |txids| == |match_| && pos < Width(|match_|, height) && (height == 0 || !AnyBelow(match_, height, pos))
    requires At(vBits, bits, BuildBits(match_, height, pos)) && At(vHash, hashes, BuildHashes(h, txids, match_, height, pos))
    ensures Extract(h, |txids|, vBits, vHash, height, pos, bits, hashes) == Expected(h, txids, match_, height, pos, bits, hashes)
  {
    var bb, bh := BuildBits(match_, height, pos), BuildHashes(h, txids, match_, height, pos);
    assert vBits[bits..bits + |bb|][0] == bb[0];
    assert vHash[hashes..hashes + |bh|][0] == bh[0];
    if height > 0 {
      NothingBelow(txids, match_, height, pos);
    }
  }

  function RightBits(match_: seq<bool>, height: nat, pos: nat): seq<bool>
    requires height > 0
  {
    if 2 * pos + 1 < Width(|match_|, height - 1) then BuildBits(match_, height - 1, 2 * pos + 1) else []
  }

  function RightHashes(h: PairHash, txids: seq<Hash>, match_: seq<bool>, height: nat, pos: nat): seq<Hash>
    requires height > 0 && |txids| == |match_|
  {
    if 2 * pos + 1 < Width(|match_|, height - 1) then BuildHashes(h, txids, match_, height - 1, 2 * pos + 1) else []
  }

  /** The record of an inner node is its bit followed by the records of its children. */
  lemma InnerRecord(h: PairHash, txids: seq<Hash>, match_: seq<bool>, height: nat, pos: nat)
    requires |txids| == |match_| && pos < Width(|match_|, height) && height > 0 && AnyBelow(match_, height, pos)
    ensures 2 * pos < Width(|match_|, height - 1)
    ensures BuildBits(match_, height, pos) == [true] + (BuildBits(match_, height - 1, 2 * pos) + RightBits(match_, height, pos))
    ensures BuildHashes(h, txids, match_, height, pos) ==
            BuildHashes(h, txids, match_, height - 1, 2 * pos) + RightHashes(h, txids, match_, height, pos)
  {
  }

  lemma ReadInner(vBits: seq<bool>, bits: nat, lb: seq<bool>, rb: seq<bool>)
    requires At(vBits, bits, [true] + (lb + rb))
    ensures bits < |vBits| && vBits[bits] && At(vBits, bits + 1, lb) && At(vBits, bits + 1 + |lb|, rb)
  {
    AtSplit(vBits, bits, [true], lb + rb);
    assert vBits[bits..bits + 1][0] == [true][0];
    AtSplit(vBits, bits + 1, lb, rb);
  }

  lemma ReadChildren(h: PairHash, txids: seq<Hash>, match_: seq<bool>, height: nat, pos: nat,
                     vBits: seq<bool>, vHash: seq<Hash>, bits: nat, hashes: nat)
    requires |txids| == |match_| && pos < Width(|match_|, height) && height > 0 && AnyBelow(match_, height, pos)
    requires At(vBits, bits, BuildBits(match_, height, pos)) && At(vHash, hashes, BuildHashes(h, txids, match_, height, pos))
    ensures 2 * pos < Width(|match_|, height - 1) && bits < |vBits| && vBits[bits]
    ensures At(vBits, bits + 1, BuildBits(match_, height - 1, 2 * pos))
    ensures At(vBits, bits + 1 + |BuildBits(match_, height - 1, 2 * pos)|, RightBits(match_, height, pos))
    ensures At(vHash, hashes, BuildHashes(h, txids, match_, height - 1, 2 * pos))
    ensures At(vHash, hashes + |BuildHashes(h, txids, match_, height - 1, 2 * pos)|, RightHashes(h, txids, match_, height, pos))
    ensures |BuildBits(match_, height, pos)| == 1 + |BuildBits(match_, height - 1, 2 * pos)| + |RightBits(match_, height, pos)|
    ensures |BuildHashes(h, txids, match_, height, pos)|
            == |BuildHashes(h, txids, match_, height - 1, 2 * pos)| + |RightHashes(h, txids, match_, height, pos)|
  {
    hide At, AnyBelow, BuildBits, BuildHashes, RightBits, RightHashes;
    InnerRecord(h, txids, match_, height, pos);
    ReadInner(vBits, bits, BuildBits(match_, height - 1, 2 * pos), RightBits(match_, height, pos));
    AtSplit(vHash, hashes, BuildHashes(h, txids, match_, height - 1, 2 * pos), RightHashes(h, txids, match_, height, pos));
  }

  // ---------- leaf ranges ----------

  /** pos << height: the first leaf below a node. */
  function Shl(pos: nat, height: nat): nat
    decreases height
  {
    if height == 0 then pos else Shl(2 * pos, height - 1)
  }

  function Clip(a: nat, n: nat): nat { if a < n then a else n }

  lemma {:induction false} ShlMonotone(a: nat, b: nat, height: nat)
    requires a <= b
    ensures Shl(a, height) <= Shl(b, height)
    decreases height
  {
    if height > 0 {
      ShlMonotone(2 * a, 2 * b, height - 1);
    }
  }

  /** A position is beyond the end of a level exactly when its leaves are beyond the end. */
  lemma {:induction false} BeyondWidth(n: nat, height: nat, pos: nat)
    ensures pos >= Width(n, height) <==> Shl(pos, height) >= n
    decreases height
  {
    if height > 0 {
      BeyondWidth(n, height - 1, 2 * pos);
    }
  }

  /** The leaves below an inner node are those of its left child followed by those of its right. */
  lemma RangeSplits(n: nat, height: nat, pos: nat)
    requires height > 0 && pos < Width(n, height)
    ensures Shl(pos, height) == Shl(2 * pos, height - 1)
    ensures Shl(2 * pos, height - 1) <= Clip(Shl(2 * pos + 1, height - 1), n) <= Clip(Shl(pos + 1, height), n)
    ensures 2 * pos + 1 >= Width(n, height - 1) ==> Clip(Shl(2 * pos + 1, height - 1), n) == Clip(Shl(pos + 1, height), n)
    ensures 2 * pos + 1 < Width(n, height - 1) ==> Clip(Shl(2 * pos + 1, height - 1), n) == Shl(2 * pos + 1, height - 1)
    ensures Shl(pos + 1, height) == Shl(2 * pos + 2, height - 1)
  {
    ShlMonotone(2 * pos, 2 * pos + 1, height - 1);
    ShlMonotone(2 * pos + 1, 2 * pos + 2, height - 1);
    BeyondWidth(n, height, pos);
    BeyondWidth(n, height - 1, 2 * pos + 1);
  }

  /** The loop that decides the flag bit of a node. */
  method ParentOfMatch(match_: seq<bool>, height: nat, pos: nat) returns (any: bool)
    requires pos < Width(|match_|, height)
    ensures any == AnyBelow(match_, height, pos)
  {
    any := false;
    var p := Shl(pos, height);
    ghost var start := p;
    while p < Shl(pos + 1, height) && p < |match_|
      invariant start <= p
      invariant p <= Clip(Shl(pos + 1, height), |match_|) || p == start
      invariant any <==> exists i :: start <= i < p && i < |match_| && match_[i]
    {
      any := any || match_[p];
      p := p + 1;
    }
    AnyInRange(match_, height, pos);
    LeavesExist(|match_|, height, pos);
  }

  lemma LeavesExist(n: nat, height: nat, pos: nat)
    requires pos < Width(n, height)
    ensures Shl(pos, height) < Clip(Shl(pos + 1, height), n)
  {
    BeyondWidth(n, height, pos);
    ShlGrows(pos, height);
  }

  lemma {:induction false} ShlGrows(pos: nat, height: nat)
    ensures Shl(pos, height) < Shl(pos + 1, height)
    decreases height
  {
    if height > 0 {
      ShlGrows(2 * pos, height - 1);
      ShlMonotone(2 * pos + 1, 2 * pos + 2, height - 1);
    }
  }

  lemma {:induction false} AnyInRange(match_: seq<bool>, height: nat, pos: nat)
    requires pos < Width(|match_|, height)
    ensures AnyBelow(match_, height, pos) <==>
            exists i :: Shl(pos, height) <= i < Clip(Shl(pos + 1, height), |match_|) && match_[i]
    decreases height
  {
    if height > 0 {
      RangeSplits(|match_|, height, pos);
      AnyInRange(match_, height - 1, 2 * pos);
      if 2 * pos + 1 < Width(|match_|, height - 1) {
        AnyInRange(match_, height - 1, 2 * pos + 1);
      }
    }
  }

  /** The matched ids of a range of the block, in order. */
  function Masked(txids: seq<Hash>, match_: seq<bool>, lo: nat, hi: nat): seq<Hash>
    requires |txids| == |match_| && lo <= hi <= |txids|
    decreases hi
  {
    if lo == hi then [] else Masked(txids, match_, lo, hi - 1) + if match_[hi - 1] then [txids[hi - 1]] else []
  }

  lemma {:induction false} MaskedConcat(txids: seq<Hash>, match_: seq<bool>, lo: nat, mid: nat, hi: nat)
    requires |txids| == |match_| && lo <= mid <= hi <= |txids|
    ensures Masked(txids, match_, lo, hi) == Masked(txids, match_, lo, mid) + Masked(txids, match_, mid, hi)
    decreases hi
  {
    if mid < hi {
      MaskedConcat(txids, match_, lo, mid, hi - 1);
    }
  }

  lemma RangeWithin(n: nat, height: nat, pos: nat)
    requires pos < Width(n, height)
    ensures Shl(pos, height) < Clip(Shl(pos + 1, height), n) <= n
    ensures height == 0 ==> Shl(pos, height) == pos && Clip(Shl(pos + 1, height), n) == pos + 1
  {
    LeavesExist(n, height, pos);
  }

  /** The ids recovered below a node are the masked part of the block it covers. */
  lemma {:induction false} MaskedBelowIsRange(txids: seq<Hash>, match_: seq<bool>, height: nat, pos: nat)
    requires |txids| == |match_| && pos < Width(|match_|, height)
    ensures Shl(pos, height) <= Clip(Shl(pos + 1, height), |txids|)
    ensures MaskedBelow(txids, match_, height, pos) == Masked(txids, match_, Shl(pos, height), Clip(Shl(pos + 1, height), |txids|))
    decreases height
  {
    hide Clip, Shl;
    RangeWithin(|txids|, height, pos);
    if height == 0 {
      assert Masked(txids, match_, pos, pos) == [];
    } else {
      RangeSplits(|txids|, height, pos);
      MaskedBelowIsRange(txids, match_, height - 1, 2 * pos);
      if 2 * pos + 1 < Width(|match_|, height - 1) {
        MaskedBelowIsRange(txids, match_, height - 1, 2 * pos + 1);
        MaskedConcat(txids, match_, Shl(pos, height), Shl(2 * pos + 1, height - 1), Clip(Shl(pos + 1, height), |txids|));
      }
    }
  }

  /** At most one hash per transaction, and at least one bit per hash. */
  lemma {:induction false} RecordSizes(h: PairHash, txids: seq<Hash>, match_: seq<bool>, height: nat, pos: nat)
    requires |txids| == |match_| && pos < Width(|match_|, height)
    ensures |BuildHashes(h, txids, match_, height, pos)| <= Clip(Shl(pos + 1, height), |txids|) - Shl(pos, height)
    ensures |BuildHashes(h, txids, match_, height, pos)| <= |BuildBits(match_, height, pos)|
    decreases height
  {
    LeavesExist(|txids|, height, pos);
    if height > 0 && AnyBelow(match_, height, pos) {
      RangeSplits(|txids|, height, pos);
      RecordSizes(h, txids, match_, height - 1, 2 * pos);
      if 2 * pos + 1 < Width(|match_|, height - 1) {
        RecordSizes(h, txids, match_, height - 1, 2 * pos + 1);
      }
    }
  }

  // ---------- soundness ----------

  datatype Flags = Flags(positions: seq<nat>, bits: nat)

  /** The leaves a stream of bits flags as matched, by the traversal's own reading of it. */
  function Flagged(n: nat, vBits: seq<bool>, height: nat, pos: nat, bits: nat): Flags
    decreases height
  {
    if bits >= |vBits| then Flags([], bits)
    else if height == 0 then Flags(if vBits[bits] then [pos] else [], bits + 1)
    else if !vBits[bits] then Flags([], bits + 1)
    else
      var l := Flagged(n, vBits, height - 1, 2 * pos, bits + 1);
      if 2 * pos + 1 < Width(n, height - 1) then
        var r := Flagged(n, vBits, height - 1, 2 * pos + 1, l.bits);
        Flags(l.positions + r.positions, r.bits)
      else l
  }

  predicate Within(ps: seq<nat>, lo: nat, hi: nat) {
    forall i :: 0 <= i < |ps| ==> lo <= ps[i] < hi
  }

  predicate Increasing(ps: seq<nat>) {
    forall i, j :: 0 <= i < j < |ps| ==> ps[i] < ps[j]
  }

  /** Flagged leaves come in block order, each at most once, within the block. */
  lemma {:induction false} FlaggedInOrder(n: nat, vBits: seq<bool>, height: nat, pos: nat, bits: nat)
    requires pos < Width(n, height)
    ensures var ps := Flagged(n, vBits, height, pos, bits).positions;
            Within(ps, Shl(pos, height), Clip(Shl(pos + 1, height), n)) && Increasing(ps)
    decreases height
  {
    LeavesExist(n, height, pos);
    if bits < |vBits| && height > 0 && vBits[bits] {
      RangeSplits(n, height, pos);
      FlaggedInOrder(n, vBits, height - 1, 2 * pos, bits + 1);
      if 2 * pos + 1 < Width(n, height - 1) {
        var l := Flagged(n, vBits, height - 1, 2 * pos, bits + 1);
        FlaggedInOrder(n, vBits, height - 1, 2 * pos + 1, l.bits);
        JoinInOrder(l.positions, Flagged(n, vBits, height - 1, 2 * pos + 1, l.bits).positions,
                    Shl(pos, height), Shl(2 * pos + 1, height - 1), Clip(Shl(pos + 1, height), n));
      }
    }
  }

  lemma JoinInOrder(a: seq<nat>, b: seq<nat>, lo: nat, mid: nat, hi: nat)
    requires Within(a, lo, mid) && Within(b, mid, hi) && Increasing(a) && Increasing(b) && lo <= mid <= hi
    ensures Within(a + b, lo, hi) && Increasing(a + b)
  {
  }

  function Pick(txids: seq<Hash>, ps: seq<nat>): seq<Hash>
    requires Within(ps, 0, |txids|)
  {
    seq(|ps|, i requires 0 <= i < |ps| => txids[ps[i]])
  }

  /** If the hash recovered for a node is the true one, then with an injective pair hash the
      recovered ids are exactly those of the flagged leaves below it. */
  lemma {:induction false} ExtractSound(h: PairHash, txids: seq<Hash>, vBits: seq<bool>, vHash: seq<Hash>,
                                        height: nat, pos: nat, bits: nat, hashes: nat)
    requires Injective(h) && pos < Width(|txids|, height)
    requires var e := Extract(h, |txids|, vBits, vHash, height, pos, bits, hashes);
             !e.bad && e.hash == CalcHash(h, txids, height, pos)
    ensures var e := Extract(h, |txids|, vBits, vHash, height, pos, bits, hashes);
            var f := Flagged(|txids|, vBits, height, pos, bits);
            e.bits == f.bits && Within(f.positions, 0, |txids|) && e.matched == Pick(txids, f.positions)
    decreases height
  {
    hide Injective, Within;
    FlaggedWithin(|txids|, vBits, height, pos, bits);
    if height == 0 || !vBits[bits] {
      if height == 0 {
        PickOne(txids, pos);
      }
    } else {
      var l := Extract(h, |txids|, vBits, vHash, height - 1, 2 * pos, bits + 1, hashes);
      var cl := CalcHash(h, txids, height - 1, 2 * pos);
      if 2 * pos + 1 < Width(|txids|, height - 1) {
        var r := Extract(h, |txids|, vBits, vHash, height - 1, 2 * pos + 1, l.bits, l.hashes);
        Unpair(h, l.hash, r.hash, cl, CalcHash(h, txids, height - 1, 2 * pos + 1));
        ExtractSound(h, txids, vBits, vHash, height - 1, 2 * pos, bits + 1, hashes);
        ExtractSound(h, txids, vBits, vHash, height - 1, 2 * pos + 1, l.bits, l.hashes);
        PickConcat(txids, Flagged(|txids|, vBits, height - 1, 2 * pos, bits + 1).positions,
                   Flagged(|txids|, vBits, height - 1, 2 * pos + 1, l.bits).positions);
      } else {
        Unpair(h, l.hash, l.hash, cl, cl);
        ExtractSound(h, txids, vBits, vHash, height - 1, 2 * pos, bits + 1, hashes);
      }
    }
  }

  lemma FlaggedWithin(n: nat, vBits: seq<bool>, height: nat, pos: nat, bits: nat)
    requires pos < Width(n, height)
    ensures Within(Flagged(n, vBits, height, pos, bits).positions, 0, n)
  {
    FlaggedInOrder(n, vBits, height, pos, bits);
  }

  lemma PickOne(txids: seq<Hash>, pos: nat)
    requires pos < |txids|
    ensures Within([pos], 0, |txids|) && Pick(txids, [pos]) == [txids[pos]]
    ensures Within([], 0, |txids|) && Pick(txids, []) == []
  {
  }

  lemma PickConcat(txids: seq<Hash>, a: seq<nat>, b: seq<nat>)
    requires Within(a, 0, |txids|) && Within(b, 0, |txids|)
    ensures Within(a + b, 0, |txids|) && Pick(txids, a + b) == Pick(txids, a) + Pick(txids, b)
  {
  }
}
