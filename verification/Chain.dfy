/** The tree of known blocks, the chain from the genesis block to any of them, and the
    coin database obtained by connecting that chain block by block.
    (src/main.h, CBlockIndex; src/main.cpp, AddToBlockIndex and ConnectBlock) */
module Chain {
  import opened Basics
  import opened Coins
  import opened Blocks
  import opened Validation
  import opened Supply
  import Target

  /** The part of a block index entry that never changes once the block is known. */
  datatype Node = Node(block: Block, prev: Option<Hash>, height: int, work: nat)

  type Tree = map<Hash, Node>

  /** The network's rules and genesis block, and the blocks known so far. */
  datatype World = World(rules: Rules, genesis: Hash, tree: Tree)

  /** One genesis block; every other block has a known parent one lower. The two blocks
      exempt from the overwrite rule belong to another currency's chain and are absent. */
  ghost predicate TreeOk(w: World) {
    forall h :: h in w.tree ==> NodeOk(w, h)
  }

  ghost predicate NodeOk(w: World, h: Hash)
    requires h in w.tree
  {
    var n := w.tree[h];
    && n.block.hash == h && n.height >= 0
    && (n.prev.None? <==> h == w.genesis)
    && (n.prev.None? ==> n.height == 0 && n.work == Target.BlockWork(w.rules.minLen, n.block.bits))
    && (n.prev.Some? ==>
          && n.prev.value in w.tree && n.height == w.tree[n.prev.value].height + 1
          && n.work == w.tree[n.prev.value].work + Target.BlockWork(w.rules.minLen, n.block.bits)
          && !(w.rules.bip30Exempt)(n.height, h))
  }

  /** A block always has more work than its parent. */
  lemma WorkIncreases(w: World, h: Hash)
    requires TreeOk(w) && h in w.tree && w.tree[h].prev.Some?
    ensures w.tree[h].prev.value in w.tree && w.tree[h].work >= w.tree[w.tree[h].prev.value].work + 256
  {
    assert NodeOk(w, h);
    Target.WorkBetweenPowers(w.rules.minLen, w.tree[h].block.bits);
  }

  // ---------- paths ----------

  /** The chain from genesis to h; its k-th element has height k. */
  ghost function Path(w: World, h: Hash): (p: seq<Hash>)
    requires TreeOk(w) && h in w.tree
    ensures |p| == w.tree[h].height + 1 && p[|p| - 1] == h
    decreases w.tree[h].height
  {
    assert NodeOk(w, h);
    if w.tree[h].prev.None? then [h] else Path(w, w.tree[h].prev.value) + [h]
  }

  lemma {:induction false} PathAt(w: World, h: Hash, k: nat)
    requires TreeOk(w) && h in w.tree && k <= w.tree[h].height
    ensures var p := Path(w, h);
            p[k] in w.tree && w.tree[p[k]].height == k && Path(w, p[k]) == p[..k + 1]
    decreases w.tree[h].height
  {
    assert NodeOk(w, h);
    var p := Path(w, h);
    if k == w.tree[h].height {
      assert p[..k + 1] == p;
    } else {
      PathAt(w, w.tree[h].prev.value, k);
      assert p[..|p| - 1] == Path(w, w.tree[h].prev.value);
      assert p[..|p| - 1][..k + 1] == p[..k + 1];
    }
  }

  /** Neighbours on a path are parent and child. */
  lemma PathStep(w: World, h: Hash, k: nat)
    requires TreeOk(w) && h in w.tree && k <= w.tree[h].height
    ensures var p := Path(w, h);
            p[k] in w.tree && if k == 0 then w.tree[p[k]].prev == None else w.tree[p[k]].prev == Some(p[k - 1])
  {
    var p := Path(w, h);
    PathAt(w, h, k);
    assert NodeOk(w, p[k]);
    if k > 0 {
      var q := Path(w, w.tree[p[k]].prev.value);
      assert p[..k + 1] == q + [p[k]];
      assert p[k - 1] == (q + [p[k]])[k - 1] == q[k - 1];
    } else {
      if w.tree[p[k]].prev.Some? {
        ParentIsLower(w, p[k]);
      }
    }
  }

  lemma ParentIsLower(w: World, h: Hash)
    requires TreeOk(w) && h in w.tree && w.tree[h].prev.Some?
    ensures w.tree[h].prev.value in w.tree && w.tree[h].height >= 1
  {
    assert NodeOk(w, h);
    assert NodeOk(w, w.tree[h].prev.value);
  }

  /** h lies on the chain that ends in tip. */
  ghost predicate OnChain(w: World, tip: Hash, h: Hash)
    requires TreeOk(w) && tip in w.tree
  {
    && h in w.tree && 0 <= w.tree[h].height <= w.tree[tip].height
    && Path(w, tip)[w.tree[h].height] == h
  }

  lemma OnChainIffInPath(w: World, tip: Hash, h: Hash)
    requires TreeOk(w) && tip in w.tree
    ensures OnChain(w, tip, h) <==> h in Path(w, tip)
  {
    var p := Path(w, tip);
    if h in p {
      var k :| 0 <= k < |p| && p[k] == h;
      PathAt(w, tip, k);
    }
  }

  /** Every chain starts at the genesis block. */
  lemma PathsShareGenesis(w: World, h: Hash)
    requires TreeOk(w) && h in w.tree
    ensures Path(w, h)[0] == w.genesis
  {
    PathStep(w, h, 0);
    assert NodeOk(w, Path(w, h)[0]);
  }

  // ---------- replaying a chain ----------

  function CoinsOnTop(u: CoinMap, n: Node): CoinMap {
    CoinsAfter(u, n.block.vtx, n.height, |n.block.vtx|)
  }

  /** The coin database after connecting the whole chain up to h, from nothing. The
      genesis block's own transactions are never connected. */
  ghost function Replay(w: World, h: Hash): CoinMap
    requires TreeOk(w) && h in w.tree
    decreases w.tree[h].height
  {
    assert NodeOk(w, h);
    if w.tree[h].prev.None? then map[]
    else CoinsOnTop(Replay(w, w.tree[h].prev.value), w.tree[h])
  }

  /** Every block of the chain is accepted on top of the ones before it; of the genesis
      block only the context-free checks are asked. */
  ghost predicate ChainConnects(w: World, h: Hash)
    requires TreeOk(w) && h in w.tree
    decreases w.tree[h].height
  {
    assert NodeOk(w, h);
    if w.tree[h].prev.None? then BlockOk(w.rules, w.tree[h].block)
    else
      && ChainConnects(w, w.tree[h].prev.value)
      && Connects(w.rules, Replay(w, w.tree[h].prev.value), w.tree[h].block, w.tree[h].height)
  }

  /** Connecting a non-exempt block keeps the database tidy. */
  lemma ConnectKeepsTidy(rules: Rules, u: CoinMap, block: Block, height: int)
    requires Tidy(u) && height >= 1 && Connects(rules, u, block, height) && NoOverwrite(u, block.vtx)
    ensures Tidy(CoinsAfter(u, block.vtx, height, |block.vtx|))
  {
    hide Tidy, Connects, WellFormed, NoOverwrite, Spendable;
    ConnectsSpendable(rules, u, block, height);
    ConnectInvariant(u, block.vtx, height, |block.vtx|, |block.vtx|);
  }

  lemma {:induction false} ReplayTidy(w: World, h: Hash)
    requires TreeOk(w) && h in w.tree && ChainConnects(w, h)
    ensures Tidy(Replay(w, h))
    decreases w.tree[h].height
  {
    hide Tidy, Connects, CoinsAfter;
    assert NodeOk(w, h);
    if w.tree[h].prev.Some? {
      var p := w.tree[h].prev.value;
      assert NodeOk(w, p);
      ReplayTidy(w, p);
      NotExempt(w.rules, Replay(w, p), w.tree[h].block, w.tree[h].height);
      ConnectKeepsTidy(w.rules, Replay(w, p), w.tree[h].block, w.tree[h].height);
    } else {
      EmptyIsTidy();
    }
  }

  lemma EmptyIsTidy()
    ensures Tidy(map[])
  {
  }

  lemma NotExempt(rules: Rules, u: CoinMap, block: Block, height: int)
    requires Connects(rules, u, block, height) && !(rules.bip30Exempt)(height, block.hash)
    ensures NoOverwrite(u, block.vtx)
  {
  }

  // ---------- money along a chain ----------

  /** The mint of every block of the chain above genesis, added up. */
  ghost function MintSum(w: World, h: Hash): int
    requires TreeOk(w) && h in w.tree
    decreases w.tree[h].height
  {
    assert NodeOk(w, h);
    if w.tree[h].prev.None? then 0
    else MintSum(w, w.tree[h].prev.value) + Target.TargetGetMint(w.rules.minLen, w.tree[h].block.bits).1
  }

  /** No chain can hold more money than its targets minted. */
  lemma {:induction false} SupplyWithinMint(w: World, h: Hash)
    requires TreeOk(w) && h in w.tree && ChainConnects(w, h)
    ensures Total(Replay(w, h)) <= MintSum(w, h)
    decreases w.tree[h].height
  {
    hide Tidy, Connects, CoinsAfter, NoOverwrite, SupplyChange;
    assert NodeOk(w, h);
    if w.tree[h].prev.Some? {
      var p := w.tree[h].prev.value;
      assert NodeOk(w, p);
      SupplyWithinMint(w, p);
      ReplayTidy(w, p);
      NotExempt(w.rules, Replay(w, p), w.tree[h].block, w.tree[h].height);
      ConnectedBlockMints(w.rules, Replay(w, p), w.tree[h].block, w.tree[h].height);
    }
  }

  // ---------- one step up, from any database that agrees with the replay ----------

  /** Connecting h on a database that shows its parent's replay is accepted exactly when
      the replay accepts it; it then shows h's replay, leaves in the undo file what the
      replay would leave, and adds the supply the replay would add. */
  lemma ConnectAgrees(w: World, h: Hash, u: CoinMap)
    requires TreeOk(w) && h in w.tree && w.tree[h].prev.Some?
    requires w.tree[h].prev.value in w.tree && Faded(Replay(w, w.tree[h].prev.value), u)
    requires ChainConnects(w, w.tree[h].prev.value)
    ensures Connects(w.rules, u, w.tree[h].block, w.tree[h].height) <==> ChainConnects(w, h)
    ensures Faded(Replay(w, h), CoinsOnTop(u, w.tree[h]))
    ensures w.tree[h].block.vtx != [] ==> UndoFor(u, w.tree[h]) == UndoFor(Replay(w, w.tree[h].prev.value), w.tree[h])
    ensures SupplyChange(u, w.tree[h].block, w.tree[h].height)
            == SupplyChange(Replay(w, w.tree[h].prev.value), w.tree[h].block, w.tree[h].height)
  {
    hide Faded, Connects, CoinsAfter, BlockUndo, StoredBlockUndo, BlockValueIn, BlockValueOut;
    var v := Replay(w, w.tree[h].prev.value);
    ConnectsCongruent(w.rules, v, u, w.tree[h].block, w.tree[h].height);
    ConnectCongruent(v, u, w.tree[h].block.vtx, w.tree[h].height, |w.tree[h].block.vtx|);
    TotalsCongruent(w.rules, v, u, w.tree[h].block, w.tree[h].height, |w.tree[h].block.vtx|);
  }

  /** The undo data of a block connected on u, as the undo file gives it back. */
  function UndoFor(u: CoinMap, n: Node): seq<seq<TxInUndo>>
    requires n.block.vtx != []
  {
    StoredBlockUndo(BlockUndo(u, n.block.vtx, n.height, |n.block.vtx|))
  }

  /** Disconnecting h from a database that shows its replay, using the undo data the replay
      left in the undo file, is clean and leads to one that shows the parent's replay. */
  lemma DisconnectAgrees(w: World, h: Hash, v: CoinMap)
    requires TreeOk(w) && h in w.tree && w.tree[h].prev.Some?
    requires ChainConnects(w, h)
    requires Tidy(v) && Faded(Replay(w, h), v)
    ensures w.tree[h].block.vtx != [] && w.tree[h].prev.value in w.tree
    ensures var before := Replay(w, w.tree[h].prev.value);
            var r := DisconnectBlock(v, w.tree[h].block.vtx, UndoFor(before, w.tree[h]), w.tree[h].height);
            r.Disconnected? && r.clean && Faded(before, r.coins) && Tidy(r.coins)
  {
    hide Faded, Tidy, Connects, CoinsAfter, BlockUndo, StoredBlockUndo, DisconnectFirst, NoOverwrite, Spendable;
    assert NodeOk(w, h);
    var p := w.tree[h].prev.value;
    assert NodeOk(w, p);
    var before := Replay(w, p);
    var n := w.tree[h];
    ReplayTidy(w, p);
    NotExempt(w.rules, before, n.block, n.height);
    ConnectsSpendable(w.rules, before, n.block, n.height);
    NoOverwriteIsFresh(before, n.block.vtx, n.height, |n.block.vtx|);
    DisconnectUndoesConnect(before, n.block.vtx, n.height, |n.block.vtx|, v);
  }
}
