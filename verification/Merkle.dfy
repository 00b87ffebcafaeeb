/** Merkle trees over transaction ids: the flat, iteratively built tree of a block, the
    recursive hash of a node, and the branch that authenticates one transaction. The pair
    hash is a parameter. (src/main.h, BuildMerkleTree / GetMerkleBranch / CheckMerkleBranch;
    src/main.cpp, CPartialMerkleTree::CalcHash) */
module Merkle {
  import opened Basics

  type PairHash = (Hash, Hash) -> Hash

  ghost predicate Injective(h: PairHash) {
    forall a, b, c, d :: h(a, b) == h(c, d) ==> a == c && b == d
  }

  lemma Unpair(h: PairHash, a: Hash, b: Hash, c: Hash, d: Hash)
    requires Injective(h) && h(a, b) == h(c, d)
    ensures a == c && b == d
  {
  }

  // ---------- geometry ----------

  /** Number of nodes at a height: each level pairs up the one below, rounding up. */
  function Width(n: nat, height: nat): nat {
    if height == 0 then n else (Width(n, height - 1) + 1) / 2
  }

  /** CalcTreeWidth: the same number in closed form. */
  function CalcTreeWidth(n: nat, height: nat): nat {
    (n + Pow2(height) - 1) / Pow2(height)
  }

  lemma QuotientIs(n: nat, p: nat, r: nat)
    requires p > 0 && r * p <= n < r * p + p
    ensures n / p == r
  {
    var s := n / p;
    assert s * p <= n < s * p + p;
    assert (s + 1) * p == s * p + p && (r + 1) * p == r * p + p;
    if s < r {
      Scaled(s + 1, r, p);
    } else if s > r {
      Scaled(r + 1, s, p);
    }
  }

  /** Width is n divided by 2^height, rounded up. */
  lemma {:induction false} WidthBounds(n: nat, k: nat)
    requires n > 0
    ensures Width(n, k) >= 1 && (Width(n, k) - 1) * Pow2(k) < n <= Width(n, k) * Pow2(k)
  {
    if k > 0 {
      WidthBounds(n, k - 1);
      HalfStep(n, Width(n, k - 1), Width(n, k), Pow2(k - 1));
    }
  }

  lemma HalfStep(n: nat, w: nat, v: nat, p: nat)
    requires w >= 1 && (w - 1) * p < n <= w * p && (2 * v == w || 2 * v == w + 1)
    ensures (v - 1) * (2 * p) < n <= v * (2 * p)
  {
    assert v * (2 * p) == 2 * v * p && (v - 1) * (2 * p) == (2 * v - 2) * p;
    Scaled(w, 2 * v, p);
    Scaled(2 * v - 2, w - 1, p);
  }

  /** The closed form is right, for every number of transactions and every height. */
  lemma ClosedWidth(n: nat, k: nat)
    ensures CalcTreeWidth(n, k) == Width(n, k)
  {
    var p := Pow2(k);
    if n == 0 {
      EmptyWidth(k);
      QuotientIs(p - 1, p, 0);
    } else {
      WidthBounds(n, k);
      var w := Width(n, k);
      assert (w - 1) * p == w * p - p;
      QuotientIs(n + p - 1, p, w);
    }
  }

  lemma {:induction false} EmptyWidth(k: nat)
    ensures Width(0, k) == 0
  {
    if k > 0 {
      EmptyWidth(k - 1);
    }
  }

  lemma {:induction false} WidthPositive(n: nat, k: nat)
    requires n > 0
    ensures Width(n, k) >= 1
  {
    if k > 0 {
      WidthPositive(n, k - 1);
    }
  }

  /** The first height, from k on, with at most one node. */
  function HeightFrom(n: nat, k: nat): (r: nat)
    ensures r >= k && Width(n, r) <= 1
    decreases Width(n, k)
  {
    if Width(n, k) > 1 then
      assert Width(n, k + 1) == (Width(n, k) + 1) / 2;
      HeightFrom(n, k + 1)
    else k
  }

  function TreeHeight(n: nat): nat {
    HeightFrom(n, 0)
  }

  /** The loop that computes it. */
  method CalcHeight(n: nat) returns (height: nat)
    ensures height == TreeHeight(n)
  {
    height := 0;
    ClosedWidth(n, 0);
    while CalcTreeWidth(n, height) > 1
      invariant HeightFrom(n, height) == TreeHeight(n) && CalcTreeWidth(n, height) == Width(n, height)
      decreases Width(n, height)
    {
      height := height + 1;
      ClosedWidth(n, height);
    }
  }

  // ---------- the hash of a node, recursively ----------

  function CalcHash(h: PairHash, txids: seq<Hash>, height: nat, pos: nat): Hash
    requires pos < Width(|txids|, height)
    decreases height
  {
    if height == 0 then txids[pos] else
      var left := CalcHash(h, txids, height - 1, 2 * pos);
      var right := if 2 * pos + 1 < Width(|txids|, height - 1) then CalcHash(h, txids, height - 1, 2 * pos + 1) else left;
      h(left, right)
  }

  function Root(h: PairHash, txids: seq<Hash>): Hash
    requires txids != []
  {
    WidthPositive(|txids|, TreeHeight(|txids|));
    CalcHash(h, txids, TreeHeight(|txids|), 0)
  }

  // ---------- the flat tree ----------

  /** All nodes of one height, left to right. */
  function Level(h: PairHash, txids: seq<Hash>, k: nat): (r: seq<Hash>)
    ensures |r| == Width(|txids|, k)
  {
    seq(Width(|txids|, k), pos requires 0 <= pos < Width(|txids|, k) => CalcHash(h, txids, k, pos))
  }

  /** Levels 0 .. k-1, one after the other: what the flat tree holds. */
  function Levels(h: PairHash, txids: seq<Hash>, k: nat): seq<Hash> {
    if k == 0 then [] else Levels(h, txids, k - 1) + Level(h, txids, k - 1)
  }

  /** One node of the next level, as the flat loop computes it. */
  lemma LevelStep(h: PairHash, txids: seq<Hash>, k: nat, i: nat)
    requires 2 * i < Width(|txids|, k)
    ensures i < Width(|txids|, k + 1)
    ensures var s := Level(h, txids, k);
            var i2 := if 2 * i + 1 < |s| then 2 * i + 1 else |s| - 1;
            Level(h, txids, k + 1)[i] == h(s[2 * i], s[i2])
  {
  }

  method BuildMerkleTree(h: PairHash, txids: seq<Hash>) returns (root: Hash, tree: seq<Hash>)
    ensures txids == [] ==> root == 0 && tree == []
    ensures txids != [] ==> root == Root(h, txids) && tree == Levels(h, txids, TreeHeight(|txids|) + 1)
  {
    hide CalcHash, Level;
    tree := txids;
    var j := 0;
    var size := |txids|;
    ghost var k := 0;
    LevelZero(h, txids);
    while size > 1
      invariant size == Width(|txids|, k) && (txids != [] ==> size >= 1)
      invariant HeightFrom(|txids|, k) == TreeHeight(|txids|)
      invariant j == |Levels(h, txids, k)| && tree == Levels(h, txids, k + 1)
      decreases size
    {
      tree := AppendLevel(h, txids, tree, j, size, k);
      j := j + size;
      size := (size + 1) / 2;
      k := k + 1;
    }
    if tree == [] {
      root := 0;
    } else {
      root := tree[|tree| - 1];
      NonEmptyLevels(h, txids, k);
    }
  }

  /** The inner loop: hashes one level into the next. */
  method AppendLevel(h: PairHash, ghost txids: seq<Hash>, start: seq<Hash>, j: nat, size: nat, ghost k: nat)
    returns (tree: seq<Hash>)
    requires size == Width(|txids|, k) && j == |Levels(h, txids, k)| && start == Levels(h, txids, k + 1)
    ensures tree == Levels(h, txids, k + 2)
  {
    hide CalcHash, Level, Width;
    NextWidth(|txids|, k);
    tree := start;
    var i := 0;
    while i < size
      invariant i % 2 == 0 && i <= size + 1
      invariant tree == start + Level(h, txids, k + 1)[..(i + 1) / 2]
      decreases size + 1 - i
    {
      var i2 := if i + 1 < size - 1 then i + 1 else size - 1;
      LevelStep(h, txids, k, i / 2);
      FlatAt(h, txids, k, i);
      FlatAt(h, txids, k, i2);
      assert tree[j + i] == start[j + i] && tree[j + i2] == start[j + i2];
      tree := tree + [h(tree[j + i], tree[j + i2])];
      i := i + 2;
    }
    assert Level(h, txids, k + 1)[..(i + 1) / 2] == Level(h, txids, k + 1);
  }

  lemma NextWidth(n: nat, k: nat)
    ensures Width(n, k + 1) == (Width(n, k) + 1) / 2
  {
  }

  lemma LevelZero(h: PairHash, txids: seq<Hash>)
    ensures Levels(h, txids, 1) == txids && Levels(h, txids, 0) == []
    ensures Width(|txids|, 0) == |txids|
  {
    assert forall i :: 0 <= i < |txids| ==> Level(h, txids, 0)[i] == txids[i];
    assert Level(h, txids, 0) == txids;
    assert Levels(h, txids, 1) == [] + txids;
  }

  lemma FlatAt(h: PairHash, txids: seq<Hash>, k: nat, i: nat)
    requires i < Width(|txids|, k)
    ensures |Levels(h, txids, k)| + i < |Levels(h, txids, k + 1)|
    ensures Levels(h, txids, k + 1)[|Levels(h, txids, k)| + i] == Level(h, txids, k)[i]
  {
  }

  lemma NonEmptyLevels(h: PairHash, txids: seq<Hash>, k: nat)
    requires Width(|txids|, k) <= 1 && (txids != [] ==> Width(|txids|, k) == 1)
    requires HeightFrom(|txids|, k) == TreeHeight(|txids|) && Levels(h, txids, k + 1) != []
    ensures txids != []
    ensures Levels(h, txids, k + 1)[|Levels(h, txids, k + 1)| - 1] == Root(h, txids)
  {
    EmptyLevels(h, k + 1);
    if txids != [] {
      FlatAt(h, txids, k, 0);
    }
  }

  lemma {:induction false} EmptyLevels(h: PairHash, k: nat)
    ensures Levels(h, [], k) == []
  {
    if k > 0 {
      EmptyLevels(h, k - 1);
      EmptyWidth(k - 1);
    }
  }

  // ---------- branches ----------

  /** index >> k */
  function Shift(n: nat, k: nat): nat {
    if k == 0 then n else Shift(n, k - 1) / 2
  }

  /** The other node of a pair: index xor 1. */
  function Sibling(i: nat): nat {
    if i % 2 == 0 then i + 1 else i - 1
  }

  /** The branch of an index: at each height the sibling, or the node itself at an odd end. */
  function Branch(h: PairHash, txids: seq<Hash>, index: nat, k: nat): seq<Hash>
    requires txids != [] && k <= TreeHeight(|txids|)
  {
    if k == 0 then [] else
      WidthPositive(|txids|, k - 1);
      var w := Width(|txids|, k - 1);
      var at := Shift(index, k - 1);
      Branch(h, txids, index, k - 1) + [Level(h, txids, k - 1)[if Sibling(at) < w then Sibling(at) else w - 1]]
  }

  method GetMerkleBranch(h: PairHash, txids: seq<Hash>, tree: seq<Hash>, nIndex: nat) returns (branch: seq<Hash>)
    requires txids != [] && tree == Levels(h, txids, TreeHeight(|txids|) + 1)
    ensures branch == Branch(h, txids, nIndex, TreeHeight(|txids|))
  {
    hide CalcHash, Level, Width;
    branch := [];
    var j, size, index := 0, |txids|, nIndex;
    ghost var k := 0;
    LevelZero(h, txids);
    while size > 1
      invariant size == Width(|txids|, k) && size >= 1
      invariant HeightFrom(|txids|, k) == TreeHeight(|txids|) && k <= TreeHeight(|txids|)
      invariant j == |Levels(h, txids, k)| && index == Shift(nIndex, k)
      invariant branch == Branch(h, txids, nIndex, k)
      decreases size
    {
      var i := if Sibling(index) < size - 1 then Sibling(index) else size - 1;
      NextWidth(|txids|, k);
      LevelInFlat(h, txids, k, i, TreeHeight(|txids|) + 1);
      branch := branch + [tree[j + i]];
      index := index / 2;
      j := j + size;
      size := (size + 1) / 2;
      k := k + 1;
    }
  }

  lemma {:induction false} LevelInFlat(h: PairHash, txids: seq<Hash>, k: nat, i: nat, m: nat)
    requires i < Width(|txids|, k) && k < m
    ensures |Levels(h, txids, k)| + i < |Levels(h, txids, m)|
    ensures Levels(h, txids, m)[|Levels(h, txids, k)| + i] == Level(h, txids, k)[i]
    decreases m
  {
    if k + 1 < m {
      LevelInFlat(h, txids, k, i, m - 1);
    } else {
      FlatAt(h, txids, k, i);
    }
  }

  /** The hash a branch leads to, from one end of it on. */
  function Fold(h: PairHash, hash: Hash, branch: seq<Hash>, index: nat): Hash
    decreases |branch|
  {
    if branch == [] then hash
    else Fold(h, if index % 2 == 1 then h(branch[0], hash) else h(hash, branch[0]), branch[1..], index / 2)
  }

  /** CheckMerkleBranch; index -1 stands for "not in a block". */
  method CheckMerkleBranch(h: PairHash, start: Hash, branch: seq<Hash>, nIndex: int) returns (hash: Hash)
    requires nIndex >= -1
    ensures nIndex == -1 ==> hash == 0
    ensures nIndex >= 0 ==> hash == Fold(h, start, branch, nIndex)
  {
    if nIndex == -1 {
      return 0;
    }
    hash := start;
    var index := nIndex;
    for i := 0 to |branch|
      invariant index >= 0 && Fold(h, hash, branch[i..], index) == Fold(h, start, branch, nIndex)
    {
      assert branch[i..][1..] == branch[i + 1..];
      hash := if index % 2 == 1 then h(branch[i], hash) else h(hash, branch[i]);
      index := index / 2;
    }
  }

  lemma {:induction false} FoldAppend(h: PairHash, hash: Hash, branch: seq<Hash>, x: Hash, index: nat)
    ensures Fold(h, hash, branch + [x], index) ==
            var mid := Fold(h, hash, branch, index);
            if Shift(index, |branch|) % 2 == 1 then h(x, mid) else h(mid, x)
    decreases |branch|
  {
    if branch == [] {
      assert [x][1..] == [];
      assert branch + [x] == [x];
      assert Fold(h, if index % 2 == 1 then h(x, hash) else h(hash, x), [], index / 2)
             == if index % 2 == 1 then h(x, hash) else h(hash, x);
    } else {
      var next := if index % 2 == 1 then h(branch[0], hash) else h(hash, branch[0]);
      assert (branch + [x])[1..] == branch[1..] + [x];
      FoldAppend(h, next, branch[1..], x, index / 2);
      ShiftFirst(index, |branch| - 1);
    }
  }

  lemma {:induction false} ShiftFirst(n: nat, k: nat)
    ensures Shift(n / 2, k) == Shift(n, k + 1)
  {
    if k > 0 {
      ShiftFirst(n, k - 1);
    }
  }

  /** The k-th partial fold of a transaction's own branch is its ancestor at height k. */
  lemma {:induction false} BranchFollowsPath(h: PairHash, txids: seq<Hash>, index: nat, k: nat)
    requires index < |txids| && k <= TreeHeight(|txids|)
    ensures |Branch(h, txids, index, k)| == k && Shift(index, k) < Width(|txids|, k)
    ensures Fold(h, txids[index], Branch(h, txids, index, k), index) == CalcHash(h, txids, k, Shift(index, k))
  {
    hide CalcHash, TreeHeight, Fold, Width;
    if k == 0 {
      AtLeaf(h, txids, index, txids[index]);
    } else {
      BranchFollowsPath(h, txids, index, k - 1);
      var at := Shift(index, k - 1);
      ParentHash(h, txids, k, at);
      var w := Width(|txids|, k - 1);
      FoldAppend(h, txids[index], Branch(h, txids, index, k - 1),
                 Level(h, txids, k - 1)[if Sibling(at) < w then Sibling(at) else w - 1], index);
    }
  }

  lemma AtLeaf(h: PairHash, txids: seq<Hash>, index: nat, hash: Hash)
    requires index < |txids|
    ensures Shift(index, 0) == index < Width(|txids|, 0)
    ensures CalcHash(h, txids, 0, index) == txids[index] && Fold(h, hash, [], index) == hash
  {
  }

  /** A node and its sibling, in the order of their indices, hash to their parent. */
  lemma ParentHash(h: PairHash, txids: seq<Hash>, k: nat, at: nat)
    requires k > 0 && at < Width(|txids|, k - 1)
    ensures at / 2 < Width(|txids|, k)
    ensures var w := Width(|txids|, k - 1);
            var other := CalcHash(h, txids, k - 1, if Sibling(at) < w then Sibling(at) else w - 1);
            var self := CalcHash(h, txids, k - 1, at);
            CalcHash(h, txids, k, at / 2) == if at % 2 == 1 then h(other, self) else h(self, other)
  {
  }

  /** Every transaction's branch leads to the root. */
  lemma BranchLeadsToRoot(h: PairHash, txids: seq<Hash>, index: nat)
    requires index < |txids|
    ensures Fold(h, txids[index], Branch(h, txids, index, TreeHeight(|txids|)), index) == Root(h, txids)
  {
    hide Fold, Branch, CalcHash;
    var k := TreeHeight(|txids|);
    BranchFollowsPath(h, txids, index, k);
    WidthPositive(|txids|, k);
  }

  /** And nothing else does: with an injective pair hash, a branch of the right length that
      leads from a hash at some index to the root proves that the hash is that transaction. */
  lemma BranchProvesTransaction(h: PairHash, txids: seq<Hash>, index: nat, hash: Hash, branch: seq<Hash>)
    requires Injective(h) && index < |txids| && |branch| == TreeHeight(|txids|)
    requires Fold(h, hash, branch, index) == Root(h, txids)
    ensures hash == txids[index]
  {
    BranchFollowsPath(h, txids, index, |branch|);
    assert branch[..|branch|] == branch;
    FoldInverts(h, txids, index, hash, branch, |branch|);
  }

  lemma {:induction false} FoldInverts(h: PairHash, txids: seq<Hash>, index: nat, hash: Hash, branch: seq<Hash>, k: nat)
    requires Injective(h) && index < |txids| && k <= |branch| == TreeHeight(|txids|)
    requires Shift(index, k) < Width(|txids|, k)
    requires Fold(h, hash, branch[..k], index) == CalcHash(h, txids, k, Shift(index, k))
    ensures hash == txids[index]
  {
    hide CalcHash, TreeHeight, Fold, Injective, Width;
    if k == 0 {
      assert branch[..0] == [];
      AtLeaf(h, txids, index, hash);
    } else {
      var at := Shift(index, k - 1);
      var mid := Fold(h, hash, branch[..k - 1], index);
      assert branch[..k] == branch[..k - 1] + [branch[k - 1]];
      FoldAppend(h, hash, branch[..k - 1], branch[k - 1], index);
      BranchFollowsPath(h, txids, index, k - 1);
      ParentHash(h, txids, k, at);
      var w := Width(|txids|, k - 1);
      var other := CalcHash(h, txids, k - 1, if Sibling(at) < w then Sibling(at) else w - 1);
      if at % 2 == 1 {
        Unpair(h, branch[k - 1], mid, other, CalcHash(h, txids, k - 1, at));
      } else {
        Unpair(h, mid, branch[k - 1], CalcHash(h, txids, k - 1, at), other);
      }
      FoldInverts(h, txids, index, hash, branch, k - 1);
    }
  }
}
