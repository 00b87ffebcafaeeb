/** The node's chain state and its reorganisation: SetBestChain, ConnectBestBlock and
    AddToBlockIndex. Disk access may fail at any point and the clock may reject a block;
    both are arbitrary choices here. Block index entries are found by hash, so the fields
    that change (undo data, supply, failure flag, pnext) are maps and sets over hashes.
    (src/main.cpp, lines 1174-1235, 1421-1506, 1540-1941) */
module ChainState {
  import opened Basics
  import opened Coins
  import opened Blocks
  import opened Validation
  import opened Supply
  import opened Views
  import opened Connecting
  import opened Chain
  import opened Links
  import Target

  type BlockUndoData = seq<seq<TxInUndo>>

  /** Result of an operation: done; a block was found invalid (perhaps only because its
      time is too far in the future); or a run-time error. */
  datatype Step = Done | Invalid(culprit: Hash, tooEarly: bool) | Error

  /** What the disk and the clock do during one operation. A block is read, undone, stored or
      judged by its time at most once in it. */
  datatype Env = Env(
    readable: Hash -> bool,         // the block can be read
    undoReadable: Hash -> bool,     // its undo data can be read
    writable: Hash -> bool,         // its undo data, supply and index entry can be written
    early: Hash -> bool,            // its time is too far in the future
    indexes: bool,                  // the entry of a new block can be written
    syncs: bool)                    // the block index can be synced
  {
    predicate CanUndo(h: Hash) { readable(h) && undoReadable(h) }

    predicate CanStore(h: Hash) { readable(h) && writable(h) }
  }

  // ---------- what is stored about connected blocks ----------

  /** The block was connected at some time; the genesis block counts. */
  ghost predicate Known(w: World, undo: map<Hash, BlockUndoData>, h: Hash) {
    h == w.genesis || h in undo
  }

  function SupplyOf(supply: map<Hash, int>, h: Hash): int {
    if h in supply then supply[h] else 0
  }

  /** Undo data is stored only for blocks whose whole chain connects; it reads back as what
      the replay of the chain leaves, whatever view the block was connected on; and the supply
      recorded for the block is the value of the replayed database. */
  ghost predicate StoredFor(w: World, undo: map<Hash, BlockUndoData>, supply: map<Hash, int>, h: Hash)
    requires TreeOk(w) && h in undo
  {
    && h in w.tree && w.tree[h].prev.Some? && w.tree[h].prev.value in w.tree && w.tree[h].block.vtx != []
    && ChainConnects(w, h) && Known(w, undo, w.tree[h].prev.value)
    && undo[h] == UndoFor(Replay(w, w.tree[h].prev.value), w.tree[h])
    && SupplyOf(supply, h) == Total(Replay(w, h))
  }

  ghost predicate Stored(w: World, undo: map<Hash, BlockUndoData>, supply: map<Hash, int>)
    requires TreeOk(w)
  {
    && (forall h :: h in undo ==> StoredFor(w, undo, supply, h))
    && SupplyOf(supply, w.genesis) == 0
  }

  /** The coins on show are those of the replay of the chain that ends in best, up to pruned
      records and negative versions lost in storage. */
  ghost predicate CoinsAt(w: World, best: Option<Hash>, coins: CoinMap)
    requires TreeOk(w)
  {
    && Tidy(coins)
    && match best
       case None => Faded(map[], coins)
       case Some(h) => h in w.tree && ChainConnects(w, h) && Faded(Replay(w, h), coins)
  }

  ghost predicate KnownTip(w: World, undo: map<Hash, BlockUndoData>, best: Option<Hash>) {
    best.Some? ==> Known(w, undo, best.value)
  }

  /** The supply recorded for a known block is right. */
  lemma KnownSupply(w: World, undo: map<Hash, BlockUndoData>, supply: map<Hash, int>, h: Hash)
    requires TreeOk(w) && Stored(w, undo, supply) && h in w.tree && Known(w, undo, h)
    ensures SupplyOf(supply, h) == Total(Replay(w, h))
  {
    hide Total, ChainConnects;
    if h in undo {
      assert StoredFor(w, undo, supply, h);
    } else {
      assert NodeOk(w, h);
      assert Replay(w, h) == map[];
      EmptyTotal();
    }
  }

  lemma EmptyTotal()
    ensures Total(map[]) == 0
  {
  }

  /** Recording the undo data and supply of a freshly connected block. */
  lemma StoreConnected(w: World, undo: map<Hash, BlockUndoData>, supply: map<Hash, int>, h: Hash, u: CoinMap)
    requires TreeOk(w) && Stored(w, undo, supply)
    requires h in w.tree && w.tree[h].prev.Some? && w.tree[h].prev.value in w.tree
    requires CoinsAt(w, w.tree[h].prev, u) && Known(w, undo, w.tree[h].prev.value)
    requires Connects(w.rules, u, w.tree[h].block, w.tree[h].height)
    ensures w.tree[h].block.vtx != [] && ChainConnects(w, h)
    ensures var supply' := supply[h := SupplyOf(supply, w.tree[h].prev.value) + SupplyChange(u, w.tree[h].block, w.tree[h].height)];
            && Stored(w, undo, supply')
            && (h in undo ==> undo[h] == UndoFor(u, w.tree[h]))
            && Stored(w, undo[h := UndoFor(u, w.tree[h])], supply')
  {
    hide Total, CoinsAt, TreeOk, Connects, ChainConnects, Replay, UndoFor, SupplyChange;
    var n, p := w.tree[h], w.tree[h].prev.value;
    FreshRecord(w, undo, supply, h, u);
    var supply' := supply[h := SupplyOf(supply, p) + SupplyChange(u, n.block, n.height)];
    var undo' := undo[h := UndoFor(u, n)];
    forall k | k in undo ensures StoredFor(w, undo, supply', k) && StoredFor(w, undo', supply', k) {
      assert StoredFor(w, undo, supply, k);
    }
    assert h in undo ==> StoredFor(w, undo, supply, h);
    assert StoredFor(w, undo', supply', h);
  }

  lemma FreshRecord(w: World, undo: map<Hash, BlockUndoData>, supply: map<Hash, int>, h: Hash, u: CoinMap)
    requires TreeOk(w) && Stored(w, undo, supply)
    requires h in w.tree && w.tree[h].prev.Some? && w.tree[h].prev.value in w.tree
    requires CoinsAt(w, w.tree[h].prev, u) && Known(w, undo, w.tree[h].prev.value)
    requires Connects(w.rules, u, w.tree[h].block, w.tree[h].height)
    ensures w.tree[h].block.vtx != [] && ChainConnects(w, h) && h != w.genesis
    ensures UndoFor(u, w.tree[h]) == UndoFor(Replay(w, w.tree[h].prev.value), w.tree[h])
    ensures SupplyOf(supply, w.tree[h].prev.value) + SupplyChange(u, w.tree[h].block, w.tree[h].height) == Total(Replay(w, h))
  {
    hide Total, Faded, Tidy, Stored, Connects, ChainConnects, Replay, CoinsOnTop, UndoFor, SupplyChange;
    assert NodeOk(w, h);
    ConnectAgrees(w, h, u);
    ConnectsNonEmpty(w.rules, u, w.tree[h].block, w.tree[h].height);
    KnownSupply(w, undo, supply, w.tree[h].prev.value);
    ReplayAddsSupply(w, h);
  }

  lemma ConnectedCoins(w: World, h: Hash, u: CoinMap)
    requires TreeOk(w) && h in w.tree && w.tree[h].prev.Some? && CoinsAt(w, w.tree[h].prev, u)
    requires Connects(w.rules, u, w.tree[h].block, w.tree[h].height)
    ensures var after := CoinsAfter(u, w.tree[h].block.vtx, w.tree[h].height, |w.tree[h].block.vtx|);
            Tidy(after) ==> CoinsAt(w, Some(h), after)
  {
    hide Faded, Tidy, Connects, CoinsAfter, UndoFor, SupplyChange;
    ConnectAgrees(w, h, u);
  }

  lemma ConnectsNonEmpty(rules: Rules, u: CoinMap, block: Block, height: int)
    requires Connects(rules, u, block, height)
    ensures block.vtx != []
  {
  }

  lemma ReplayAddsSupply(w: World, h: Hash)
    requires TreeOk(w) && h in w.tree && w.tree[h].prev.Some? && w.tree[h].prev.value in w.tree && ChainConnects(w, h)
    ensures Total(Replay(w, h)) == Total(Replay(w, w.tree[h].prev.value))
                                   + SupplyChange(Replay(w, w.tree[h].prev.value), w.tree[h].block, w.tree[h].height)
  {
    hide Total, Tidy, Connects, CoinsAfter, SupplyChange, NoOverwrite;
    var p := w.tree[h].prev.value;
    assert NodeOk(w, h) && NodeOk(w, p);
    ReplayTidy(w, p);
    NotExempt(w.rules, Replay(w, p), w.tree[h].block, w.tree[h].height);
    ConnectedBlockMints(w.rules, Replay(w, p), w.tree[h].block, w.tree[h].height);
  }

  /** One step down: undoing a stored block on a view that agrees with it. */
  lemma StoredUndoIsClean(w: World, undo: map<Hash, BlockUndoData>, supply: map<Hash, int>, h: Hash, v: CoinMap)
    requires TreeOk(w) && Stored(w, undo, supply) && h in undo && CoinsAt(w, Some(h), v)
    ensures h in w.tree && w.tree[h].prev.Some? && w.tree[h].prev.value in w.tree
    ensures var r := DisconnectBlock(v, w.tree[h].block.vtx, undo[h], w.tree[h].height);
            r.Disconnected? && r.clean && CoinsAt(w, w.tree[h].prev, r.coins)
    ensures Known(w, undo, w.tree[h].prev.value)
  {
    hide Total, Faded, Tidy, Connects, CoinsOnTop, UndoFor, DisconnectBlock;
    assert StoredFor(w, undo, supply, h);
    DisconnectAgrees(w, h, v);
  }

  class NodeState {
    const rules: Rules
    const genesis: Hash
    const coinsTip: CoinsView
    var tree: Tree
    var undo: map<Hash, BlockUndoData>          // what the undo file gives back, by block
    var supply: map<Hash, int>                  // nMoneySupply, zero where absent
    var failed: set<Hash>                       // blocks flagged invalid, or below such a block
    var pnext: map<Hash, Hash>                  // child on the main chain
    var candidates: set<Hash>                   // setBlockIndexValid
    var best: Option<Hash>                      // pindexBest

    constructor (rules: Rules, genesis: Hash, coinsTip: CoinsView)
      requires coinsTip.Valid() && coinsTip.base != null && coinsTip.Contents() == map[] && coinsTip.Best() == None
      ensures Valid()
      ensures tree == map[] && best == None && this.rules == rules && this.genesis == genesis && this.coinsTip == coinsTip
    {
      this.rules, this.genesis, this.coinsTip := rules, genesis, coinsTip;
      tree, undo, supply, failed, pnext, candidates, best := map[], map[], map[], {}, map[], {}, None;
    }

    ghost function W(): World
      reads this`tree
    {
      World(rules, genesis, tree)
    }

    ghost predicate RecordsOk()
      reads this`tree, this`undo, this`supply
    {
      TreeOk(W()) && Stored(W(), undo, supply)
    }

    /** What holds whenever no operation is running. */
    ghost predicate Valid()
      reads this, coinsTip, coinsTip.Repr
    {
      && RecordsOk() && Usable(coinsTip)
      && coinsTip.Best() == best && CoinsAt(W(), best, coinsTip.Contents()) && KnownTip(W(), undo, best)
      && pnext == LinksAt(W(), best)
      && candidates + failed <= tree.Keys && candidates !! failed
    }

    /** The view is a cache this node may work on. */
    ghost predicate Usable(view: CoinsView)
      reads this, view, view.Repr
    {
      view.Valid() && view.base != null && this !in view.Repr
    }

    /** ConnectBlock on a view whose tip is the block's parent. */
    method ConnectBlock(view: CoinsView, h: Hash, env: Env) returns (r: Step)
      requires RecordsOk() && Usable(view) && h in tree
      requires view.Best() == tree[h].prev
      requires CoinsAt(W(), tree[h].prev, view.Contents()) && KnownTip(W(), undo, tree[h].prev)
      modifies this`undo, this`supply, view.Repr
      ensures RecordsOk() && Usable(view)
      ensures view.BaseContents() == old(view.BaseContents()) && view.BaseBest() == old(view.BaseBest())
      ensures old(view.tip).Some? ==> view.tip.Some?
      ensures undo.Keys >= old(undo).Keys && forall k :: k in old(undo) ==> undo[k] == old(undo)[k]
      ensures r.Done? ==> view.Best() == Some(h) && CoinsAt(W(), Some(h), view.Contents()) && Known(W(), undo, h) && view.tip.Some?
      ensures r.Done? ==> ChainConnects(W(), h)
      ensures r.Invalid? ==> r.culprit == h && if r.tooEarly then env.early(h) else !ChainConnects(W(), h)
      ensures r.Error? ==> !env.writable(h)
    {
      hide Total, Faded, Tidy, TreeOk, Stored, CoinsAt, Connects, ChainConnects, Replay, UndoFor, SupplyChange, BlockOk, CoinsAfter;
      ghost var w := W();
      ghost var u := view.Contents();
      var node := tree[h];
      NodeFacts(w, h, u);
      if env.early(h) {
        return Invalid(h, true);
      }
      var blockOk := CheckBlock(rules, node.block);
      if !blockOk {
        return Invalid(h, false);
      }
      if h == genesis {
        CoinsAtConnects(w, h, u);
        view.SetBestBlock(h);
        return Done;
      }
      var result := ConnectChecked(rules, view, node.block, node.height);
      if result.Rejected? {
        // the supply field may already have been set, and storing it may have failed
        var written: int, stored: bool := *, *;
        KeepStored(w, undo, supply, h, written);
        supply := supply[h := written];
        if stored && !env.writable(h) {
          return Error;
        }
        return Invalid(h, false);
      }
      ConnectsNonEmpty(rules, u, node.block, node.height);
      ConnectedFacts(u, node);
      ConnectedCoins(w, h, u);
      var written := RecordConnected(h, result.undo, result.valueOut - result.valueIn, u, env);
      if !written {
        return Error;
      }
      view.SetBestBlock(h);
      r := Done;
    }

    /** SetBestChain: reorganise to the chain that ends in target, all or nothing.
        Whatever happens, the coins on show are those of replaying the chain to the current
        tip. A failed attempt changes neither coins nor tip nor pnext; it may only leave undo
        data and supply of blocks it connected on the way, and flag the block it found
        invalid, which was not on the main chain. It fails with an error only where the disk
        fails; undisturbed by disk and clock it succeeds exactly if the chain connects. */
    method SetBestChain(target: Hash, env: Env) returns (r: Step)
      requires Valid() && target in tree
      modifies this, coinsTip.Repr
      ensures Valid() && tree == old(tree)
      ensures undo.Keys >= old(undo).Keys && forall k :: k in old(undo) ==> undo[k] == old(undo)[k]
      ensures r.Done? ==> best == Some(target)
      ensures !r.Done? ==> best == old(best) && pnext == old(pnext) && coinsTip.Contents() == old(coinsTip.Contents())
      ensures r.Invalid? ==>
                && r.culprit in tree && OnChain(W(), target, r.culprit)
                && (best.Some? ==> !OnChain(W(), best.value, r.culprit))
                && Guilty(W(), r, env)
                && failed == old(failed) + {r.culprit} && candidates == old(candidates) - {r.culprit}
      ensures !r.Invalid? ==> failed == old(failed) && candidates == old(candidates)
      ensures r.Error? ==> DiskFails(W(), best, target, env)
      ensures !DiskFails(W(), old(best), target, env) && !ClockObjects(W(), old(best), target, env) ==>
                (r.Done? <==> ChainConnects(W(), target))
    {
      hide TreeOk, Stored, CoinsAt, ChainConnects, Path, OnChain, IsPlan, LinksAt, DiskFails, ClockObjects;
      var view, fork, disconnect, connect;
      r, view, fork, disconnect, connect := Prepare(target, env);
      if r.Invalid? {
        ghost var i :| 0 <= i < |connect| && connect[i] == r.culprit;
        CulpritOffMainChain(W(), best, target, fork, disconnect, connect, i);
        NotAllConnects(W(), best, target, r, env);
        InvalidBlockFound(r.culprit);
      } else if r.Done? {
        CoinsAtConnects(W(), target, view.Contents());
        Adopt(view, target, fork, disconnect, connect);
      } else {
        PlanFails(W(), best, target, fork, disconnect, connect, env);
      }
    }

    /** Plans the reorganisation and tries it on a fresh view; the node itself stays as it is. */
    method Prepare(target: Hash, env: Env)
      returns (r: Step, view: CoinsView, fork: Option<Hash>, disconnect: seq<Hash>, connect: seq<Hash>)
      requires Valid() && target in tree
      modifies this`undo, this`supply, coinsTip.Repr
      ensures Valid() && coinsTip.Contents() == old(coinsTip.Contents())
      ensures undo.Keys >= old(undo).Keys && forall k :: k in old(undo) ==> undo[k] == old(undo)[k]
      ensures fresh(view) && view.base == coinsTip && view.Repr == coinsTip.Repr + {view} && Usable(view)
      ensures IsPlan(W(), best, target, fork, disconnect, connect)
      ensures r.Done? ==> view.Best() == Some(target) && CoinsAt(W(), Some(target), view.Contents()) && Known(W(), undo, target)
                          && view.tip.Some?
      ensures r.Invalid? ==> r.culprit in connect && Guilty(W(), r, env)
      ensures r.Error? ==> (exists i :: 0 <= i < |disconnect| && !env.CanUndo(disconnect[i]))
                           || exists i :: 0 <= i < |connect| && !env.CanStore(connect[i])
    {
      hide TreeOk, Stored, CoinsAt, ChainConnects, IsPlan, LinksAt;
      view := new CoinsView.Cache(coinsTip);
      var tip := view.GetBestBlock();
      CoinsAtTip(W(), tip, coinsTip.Contents());
      fork, disconnect, connect := Plan(tree, tip, target, W());
      r := Reorganise(view, tip, target, fork, disconnect, connect, env);
    }

    /** ConnectBestBlock: move to the candidate with the most work. A candidate below a
        block flagged invalid is flagged and dropped, which is why this terminates. On
        success no candidate has more work than the tip, and a tip that already had the
        most work is kept, ties included. */
    method ConnectBestBlock(env: Env) returns (r: Step)
      requires Valid()
      modifies this, coinsTip.Repr
      ensures Valid() && tree == old(tree)
      ensures candidates <= old(candidates) && failed >= old(failed)
      ensures r.Done? ==> best.None? ==> candidates == {}
      ensures r.Done? ==> best.Some? ==> best.value in tree && forall c :: c in candidates ==> tree[c].work <= tree[best.value].work
      ensures r.Done? && old(best).Some? && old(best).value in tree ==>
                (forall c :: c in old(candidates) ==> tree[c].work <= tree[old(best).value].work) ==> best == old(best)
      ensures r.Invalid? ==> Guilty(W(), r, env)
      ensures r.Error? ==> exists h :: h in tree && !(env.CanUndo(h) && env.CanStore(h))
    {
      hide TreeOk, Stored, CoinsAt, LinksAt, Path, OnChain, ChainConnects;
      while candidates != {}
        invariant Valid() && tree == old(tree) && best == old(best)
        invariant candidates <= old(candidates) && failed >= old(failed)
        decreases candidates
      {
        BestCandidateExists(tree, candidates);
        var top :| top in candidates && forall c :: c in candidates ==> tree[c].work <= tree[top].work && (tree[c].work == tree[top].work ==> top <= c);
        CoinsAtTip(W(), best, coinsTip.Contents());
        if best.Some? && tree[top].work == tree[best.value].work {
          return Done;
        }
        var bad, attach := CheckAncestry(top);
        if bad.Some? {
          MarkFailed(top, bad.value);
        } else {
          r := AttachAll(top, attach, env);
          return;
        }
      }
      CoinsAtTip(W(), best, coinsTip.Contents());
      r := Done;
    }

    /** Walks from a candidate to the main chain. Stops at a block flagged invalid, if there
        is one; otherwise collects, highest first, the blocks with more work than the tip. */
    method CheckAncestry(top: Hash) returns (bad: Option<Hash>, attach: seq<Hash>)
      requires Valid() && top in candidates
      ensures bad.Some? ==> bad.value in failed && bad.value in tree && OnChain(W(), top, bad.value)
      ensures bad.None? ==>
                && (forall i :: 0 <= i < |attach| ==> attach[i] in tree && (best.Some? && best.value in tree ==> tree[attach[i]].work > tree[best.value].work))
                && (attach == [] ==> best.Some? && best.value in tree && tree[top].work <= tree[best.value].work)
                && (attach != [] ==> attach[0] == top)
    {
      hide Stored, CoinsAt, LinksAt, Path, OnChain, ChainConnects;
      ghost var w := W();
      CoinsAtTip(w, best, coinsTip.Contents());
      SelfOnChain(w, top);
      var at := top;
      bad, attach := None, [];
      while true
        invariant at in tree && OnChain(w, top, at) && tree[at].height >= 0 && tree[at].work <= tree[top].work
        invariant forall i :: 0 <= i < |attach| ==> attach[i] in tree && (best.Some? && best.value in tree ==> tree[attach[i]].work > tree[best.value].work)
        invariant attach == [] ==> at == top || (best.Some? && tree[top].work <= tree[best.value].work)
        invariant attach != [] ==> attach[0] == top
        decreases tree[at].height
      {
        if at in failed {
          return Some(at), attach;
        }
        if best.None? || tree[at].work > tree[best.value].work {
          attach := attach + [at];
        }
        if tree[at].prev.None? || at in pnext {
          return None, attach;
        }
        AncestryStep(w, top, at);
        at := tree[at].prev.value;
      }
    }

    /** Flags a candidate and its ancestors down to, but not including, a failed block. */
    method MarkFailed(top: Hash, bad: Hash)
      requires Valid() && top in candidates && bad in failed && bad in tree && OnChain(W(), top, bad)
      modifies this`failed, this`candidates
      ensures Valid()
      ensures candidates <= old(candidates) - {top} && failed >= old(failed)
    {
      hide TreeOk, Stored, CoinsAt, LinksAt, OnChain;
      failed, candidates := MarkDown(tree, top, bad, failed, candidates, W());
    }

    /** Switches to the collected blocks one by one, lowest first. */
    method AttachAll(top: Hash, attach: seq<Hash>, env: Env) returns (r: Step)
      requires Valid() && top in candidates
      requires forall i :: 0 <= i < |attach| ==> attach[i] in tree
      requires attach != [] ==> attach[0] == top
      modifies this, coinsTip.Repr
      ensures Valid() && tree == old(tree)
      ensures candidates <= old(candidates) && failed >= old(failed)
      ensures r.Done? ==> candidates == old(candidates) && best == if attach == [] then old(best) else Some(top)
      ensures r.Invalid? ==> Guilty(W(), r, env)
      ensures r.Error? ==> exists h :: h in tree && !(env.CanUndo(h) && env.CanStore(h))
    {
      hide TreeOk, Stored, CoinsAt, LinksAt, Path, OnChain, ChainConnects;
      var switches := Reverse(attach);
      for i := 0 to |switches|
        invariant Valid() && tree == old(tree) && candidates == old(candidates) && failed == old(failed)
        invariant best == if i == 0 then old(best) else Some(switches[i - 1])
      {
        r := SetBestChain(switches[i], env);
        if !r.Done? {
          SomeBlockFails(W(), best, switches[i], env);
          return;
        }
      }
      r := Done;
    }

    /** AddToBlockIndex: a block whose parent is known joins the tree, and the best chain is
        looked for again. Only the genesis block has no known parent. */
    method AddToBlockIndex(block: Block, prevHash: Hash, env: Env) returns (r: Step)
      requires Valid() && block.hash !in tree
      requires block.hash == genesis <==> prevHash !in tree
      requires prevHash in tree ==> !(rules.bip30Exempt)(tree[prevHash].height + 1, block.hash)
      modifies this, coinsTip.Repr
      ensures Valid() && block.hash in tree && old(tree).Keys <= tree.Keys
      ensures r.Done? ==> best.Some? ==> best.value in tree && forall c :: c in candidates ==> tree[c].work <= tree[best.value].work
      ensures r.Invalid? ==> Guilty(W(), r, env)
      ensures r.Error? ==> !env.indexes || !env.syncs || exists h :: h in tree && !(env.CanUndo(h) && env.CanStore(h))
    {
      hide TreeOk, Stored, CoinsAt, LinksAt, KnownTip;
      var prev := if prevHash in tree then Some(prevHash) else None;
      var work := Target.GetBlockWork(rules.minLen, block.bits);
      var node := if prev.None? then Chain.Node(block, prev, 0, work)
                  else Chain.Node(block, prev, tree[prevHash].height + 1, tree[prevHash].work + work);
      GrowTree(W(), block.hash, node, undo, supply, best, coinsTip.Contents());
      tree := tree[block.hash := node];
      candidates := candidates + {block.hash};
      if !env.indexes {
        return Error;
      }
      r := ConnectBestBlock(env);
      if r.Done? && !env.syncs {
        return Error;
      }
    }

    /** Makes the reorganised view the state of the node. */
    method Adopt(view: CoinsView, target: Hash, fork: Option<Hash>, disconnect: seq<Hash>, connect: seq<Hash>)
      requires RecordsOk() && Usable(view) && view.base == coinsTip && coinsTip.base != null && view.tip.Some?
      requires IsPlan(W(), best, target, fork, disconnect, connect) && pnext == LinksAt(W(), best)
      requires view.Best() == Some(target) && CoinsAt(W(), Some(target), view.Contents()) && Known(W(), undo, target)
      requires candidates + failed <= tree.Keys && candidates !! failed
      modifies this`pnext, this`best, view.Repr
      ensures Valid() && best == Some(target)
    {
      hide TreeOk, Stored, CoinsAt, IsPlan, LinksAt;
      ghost var w := W();
      Commit(view, target);
      pnext := Relink(pnext, tree, best, target, fork, disconnect, connect, w);
      CoinsAtTip(w, Some(target), coinsTip.Contents());
      best := Some(target);
    }

    /** Disconnects and connects the blocks of a plan on a view of the coins. */
    method Reorganise(view: CoinsView, tip: Option<Hash>, target: Hash, ghost fork: Option<Hash>,
                      disconnect: seq<Hash>, connect: seq<Hash>, env: Env)
      returns (r: Step)
      requires RecordsOk() && Usable(view) && IsPlan(W(), tip, target, fork, disconnect, connect)
      requires view.Best() == tip && view.tip == tip && CoinsAt(W(), tip, view.Contents()) && KnownTip(W(), undo, tip)
      modifies this`undo, this`supply, view.Repr
      ensures RecordsOk() && Usable(view)
      ensures view.BaseContents() == old(view.BaseContents()) && view.BaseBest() == old(view.BaseBest())
      ensures undo.Keys >= old(undo).Keys && forall k :: k in old(undo) ==> undo[k] == old(undo)[k]
      ensures r.Done? ==> view.Best() == Some(target) && CoinsAt(W(), Some(target), view.Contents()) && Known(W(), undo, target)
                          && view.tip.Some?
      ensures r.Invalid? ==> r.culprit in connect && Guilty(W(), r, env)
      ensures r.Error? ==> (exists i :: 0 <= i < |disconnect| && !env.CanUndo(disconnect[i]))
                           || exists i :: 0 <= i < |connect| && !env.CanStore(connect[i])
    {
      hide TreeOk, Stored, CoinsAt, ChainConnects, Path, OnChain, IsPlan;
      PlanFacts(W(), tip, target, fork, disconnect, connect);
      if tip.Some? {
        var ok := DisconnectAll(view, tip.value, disconnect, env);
        if !ok {
          return Error;
        }
      }
      r := ConnectAll(view, target, connect, ForkHeight(W(), fork) + 1, env);
    }

    /** Hands the result to the coin cache and perhaps on to disk. */
    method Commit(view: CoinsView, ghost target: Hash)
      requires RecordsOk() && Usable(view) && view.base == coinsTip && coinsTip.base != null && view.tip.Some?
      requires view.Best() == Some(target) && CoinsAt(W(), Some(target), view.Contents())
      modifies view.Repr
      ensures Usable(coinsTip) && coinsTip.Best() == Some(target) && CoinsAt(W(), Some(target), coinsTip.Contents())
    {
      hide TreeOk, Stored, CoinsAt, Faded, Tidy;
      ghost var shown := view.Contents();
      CoinsAtTidy(W(), Some(target), shown);
      view.Flush();
      CoinsAtFaded(W(), Some(target), shown, coinsTip.Contents());
      var write: bool := *;
      if write {
        shown := coinsTip.Contents();
        coinsTip.Flush();
        CoinsAtFaded(W(), Some(target), shown, coinsTip.Contents());
      }
    }

    /** Flags a block that failed to connect. Such a block is not on the main chain, so the
        nested reorganisation away from it, which the source guards by pnext, never starts. */
    method InvalidBlockFound(h: Hash)
      requires h !in pnext
      modifies this`failed, this`candidates
      ensures failed == old(failed) + {h} && candidates == old(candidates) - {h}
    {
      failed := failed + {h};
      candidates := candidates - {h};
    }

    /** Disconnects a list of blocks, tip first. */
    method DisconnectAll(view: CoinsView, tip: Hash, list: seq<Hash>, env: Env) returns (ok: bool)
      requires RecordsOk() && Usable(view) && tip in tree && |list| <= tree[tip].height
      requires forall i :: 0 <= i < |list| ==> list[i] == Path(W(), tip)[tree[tip].height - i]
      requires view.Best() == Some(tip) && CoinsAt(W(), Some(tip), view.Contents()) && Known(W(), undo, tip)
      modifies view.Repr
      ensures Usable(view)
      ensures view.BaseContents() == old(view.BaseContents()) && view.BaseBest() == old(view.BaseBest())
      ensures old(view.tip).Some? ==> view.tip.Some?
      ensures ok <==> forall i :: 0 <= i < |list| ==> env.CanUndo(list[i])
      ensures ok ==> var at := Some(Path(W(), tip)[tree[tip].height - |list|]);
                     view.Best() == at && CoinsAt(W(), at, view.Contents()) && KnownTip(W(), undo, at)
    {
      hide TreeOk, Stored, CoinsAt, Path;
      ghost var w := W();
      SelfOnChain(w, tip);
      TipIsLast(w, tip);
      for i := 0 to |list|
        invariant Usable(view)
        invariant view.BaseContents() == old(view.BaseContents()) && view.BaseBest() == old(view.BaseBest())
        invariant old(view.tip).Some? ==> view.tip.Some?
        invariant forall j :: 0 <= j < i ==> env.CanUndo(list[j])
        invariant var at := Some(Path(w, tip)[tree[tip].height - i]);
                  view.Best() == at && CoinsAt(w, at, view.Contents()) && KnownTip(w, undo, at)
      {
        PathBlockInUndo(w, undo, tip, tree[tip].height - i);
        if !env.readable(list[i]) {
          return false;
        }
        ok := DisconnectBlock(view, list[i], env);
        if !ok {
          return;
        }
      }
      ok := true;
    }

    /** Connects the blocks of the chain to target from height start on. */
    method ConnectAll(view: CoinsView, target: Hash, list: seq<Hash>, ghost start: nat, env: Env) returns (r: Step)
      requires RecordsOk() && Usable(view) && target in tree && start + |list| == tree[target].height + 1
      requires forall i :: 0 <= i < |list| ==> list[i] == Path(W(), target)[start + i]
      requires var at := TipAt(Path(W(), target), start - 1);
               view.Best() == at && CoinsAt(W(), at, view.Contents()) && KnownTip(W(), undo, at)
      modifies this`undo, this`supply, view.Repr
      ensures RecordsOk() && Usable(view)
      ensures view.BaseContents() == old(view.BaseContents()) && view.BaseBest() == old(view.BaseBest())
      ensures old(view.tip).Some? ==> view.tip.Some?
      ensures undo.Keys >= old(undo).Keys && forall k :: k in old(undo) ==> undo[k] == old(undo)[k]
      ensures r.Done? ==> view.Best() == Some(target) && CoinsAt(W(), Some(target), view.Contents()) && Known(W(), undo, target)
                          && (list != [] ==> view.tip.Some?)
      ensures r.Invalid? ==> r.culprit in list && Guilty(W(), r, env)
      ensures r.Error? ==> exists i :: 0 <= i < |list| && !env.CanStore(list[i])
    {
      hide TreeOk, Stored, CoinsAt, ChainConnects, Path;
      ghost var w := W();
      SelfOnChain(w, target);
      TipIsLast(w, target);
      for i := 0 to |list|
        invariant RecordsOk() && Usable(view)
        invariant view.BaseContents() == old(view.BaseContents()) && view.BaseBest() == old(view.BaseBest())
        invariant old(view.tip).Some? ==> view.tip.Some?
        invariant undo.Keys >= old(undo).Keys && forall k :: k in old(undo) ==> undo[k] == old(undo)[k]
        invariant i > 0 ==> view.tip.Some?
        invariant var at := TipAt(Path(w, target), start + i - 1);
                  view.Best() == at && CoinsAt(w, at, view.Contents()) && KnownTip(w, undo, at)
      {
        PathStep(w, target, start + i);
        if !env.readable(list[i]) {
          return Error;
        }
        r := ConnectBlock(view, list[i], env);
        if !r.Done? {
          return;
        }
      }
      r := Done;
    }

    /** DisconnectBlock on a view whose tip is the block: it fails exactly if the undo data
        cannot be read. What is read always fits, and nothing inconsistent is found. */
    method DisconnectBlock(view: CoinsView, h: Hash, env: Env) returns (ok: bool)
      requires RecordsOk() && Usable(view) && h in undo
      requires view.Best() == Some(h) && CoinsAt(W(), Some(h), view.Contents())
      modifies view.Repr
      ensures Usable(view)
      ensures view.BaseContents() == old(view.BaseContents()) && view.BaseBest() == old(view.BaseBest())
      ensures old(view.tip).Some? ==> view.tip.Some?
      ensures ok <==> env.undoReadable(h)
      ensures ok ==> h in tree && tree[h].prev.Some? && view.Best() == tree[h].prev
                     && CoinsAt(W(), tree[h].prev, view.Contents()) && KnownTip(W(), undo, tree[h].prev)
    {
      hide TreeOk, Stored, CoinsAt, Blocks.DisconnectBlock;
      StoredUndoIsClean(W(), undo, supply, h, view.Contents());
      if !env.undoReadable(h) {
        return false;
      }
      var clean;
      ok, clean := DisconnectTransactions(view, tree[h].block.vtx, undo[h], tree[h].height);
      if !ok {
        return;
      }
      view.SetBestBlock(tree[h].prev.value);
      ok := clean;
    }

    /** Stores the supply and, unless it is there already, the undo data of a block. */
    method RecordConnected(h: Hash, blockUndo: BlockUndoData, change: int, ghost u: CoinMap, env: Env) returns (ok: bool)
      requires RecordsOk() && h in tree && tree[h].prev.Some? && tree[h].prev.value in tree && tree[h].block.vtx != []
      requires CoinsAt(W(), tree[h].prev, u) && Known(W(), undo, tree[h].prev.value)
      requires Connects(rules, u, tree[h].block, tree[h].height)
      requires StoredBlockUndo(blockUndo) == UndoFor(u, tree[h]) && change == SupplyChange(u, tree[h].block, tree[h].height)
      modifies this`undo, this`supply
      ensures RecordsOk()
      ensures undo.Keys >= old(undo).Keys && forall k :: k in old(undo) ==> undo[k] == old(undo)[k]
      ensures ok <==> env.writable(h)
      ensures ok ==> h in undo && ChainConnects(W(), h)
    {
      hide TreeOk, Stored, CoinsAt, Connects, ChainConnects, UndoFor, SupplyChange;
      StoreConnected(W(), undo, supply, h, u);
      supply := supply[h := SupplyOf(supply, tree[h].prev.value) + change];
      ok := env.writable(h);
      if ok && h !in undo {
        undo := undo[h := StoredBlockUndo(blockUndo)];      // written, and read back by DisconnectBlock
      }
    }
  }

  /** The block reported invalid is known, and is too early or on a chain that does not connect. */
  ghost predicate Guilty(w: World, r: Step, env: Env)
    requires TreeOk(w) && r.Invalid?
  {
    r.culprit in w.tree && if r.tooEarly then env.early(r.culprit) else !ChainConnects(w, r.culprit)
  }

  /** h is on the chain to tip, if there is one. */
  ghost predicate OnChainTo(w: World, tip: Option<Hash>, h: Hash)
    requires TreeOk(w)
  {
    tip.Some? && tip.value in w.tree && OnChain(w, tip.value, h)
  }

  /** The disk fails on a block to be left or on a block to be entered. */
  ghost predicate DiskFails(w: World, best: Option<Hash>, target: Hash, env: Env)
    requires TreeOk(w)
  {
    exists h :: LeftFails(w, best, target, env, h) || EnteredFails(w, best, target, env, h)
  }

  ghost predicate LeftFails(w: World, best: Option<Hash>, target: Hash, env: Env, h: Hash)
    requires TreeOk(w)
  {
    OnChainTo(w, best, h) && !OnChainTo(w, Some(target), h) && !env.CanUndo(h)
  }

  ghost predicate EnteredFails(w: World, best: Option<Hash>, target: Hash, env: Env, h: Hash)
    requires TreeOk(w)
  {
    OnChainTo(w, Some(target), h) && !OnChainTo(w, best, h) && !env.CanStore(h)
  }

  lemma SomeBlockFails(w: World, best: Option<Hash>, target: Hash, env: Env)
    requires TreeOk(w)
    ensures DiskFails(w, best, target, env) ==> exists h :: h in w.tree && !(env.CanUndo(h) && env.CanStore(h))
  {
    if h :| LeftFails(w, best, target, env, h) || EnteredFails(w, best, target, env, h) {
      assert h in w.tree && !(env.CanUndo(h) && env.CanStore(h));
    }
  }

  /** A block to be entered is too early. */
  ghost predicate ClockObjects(w: World, best: Option<Hash>, target: Hash, env: Env)
    requires TreeOk(w)
  {
    exists h :: EnteredEarly(w, best, target, env, h)
  }

  ghost predicate EnteredEarly(w: World, best: Option<Hash>, target: Hash, env: Env, h: Hash)
    requires TreeOk(w)
  {
    OnChainTo(w, Some(target), h) && !OnChainTo(w, best, h) && env.early(h)
  }

  /** A chain connects only if every block on it is on a chain that connects. */
  lemma {:induction false} AncestorConnects(w: World, tip: Hash, h: Hash)
    requires TreeOk(w) && tip in w.tree && ChainConnects(w, tip) && OnChain(w, tip, h)
    ensures ChainConnects(w, h)
    decreases w.tree[tip].height
  {
    hide Connects, Replay, BlockOk;
    if h != tip {
      OnChainIffInPath(w, tip, h);
      assert NodeOk(w, tip);
      assert NodeOk(w, w.tree[tip].prev.value);
      OnChainIffInPath(w, w.tree[tip].prev.value, h);
      AncestorConnects(w, w.tree[tip].prev.value, h);
    }
  }

  lemma NotAllConnects(w: World, best: Option<Hash>, target: Hash, r: Step, env: Env)
    requires TreeOk(w) && target in w.tree && r.Invalid? && Guilty(w, r, env)
    requires OnChain(w, target, r.culprit) && (best.Some? && best.value in w.tree ==> !OnChain(w, best.value, r.culprit))
    ensures r.tooEarly ==> ClockObjects(w, best, target, env)
    ensures !r.tooEarly ==> !ChainConnects(w, target)
  {
    hide OnChain, ChainConnects;
    if r.tooEarly {
      assert EnteredEarly(w, best, target, env, r.culprit);
    } else if ChainConnects(w, target) {
      AncestorConnects(w, target, r.culprit);
    }
  }

  lemma CoinsAtConnects(w: World, h: Hash, coins: CoinMap)
    requires TreeOk(w) && CoinsAt(w, Some(h), coins)
    ensures h in w.tree && ChainConnects(w, h)
  {
  }

  /** A failing block of the plan is one to be left or one to be entered. */
  lemma PlanFails(w: World, best: Option<Hash>, target: Hash, fork: Option<Hash>, disconnect: seq<Hash>, connect: seq<Hash>, env: Env)
    requires TreeOk(w) && IsPlan(w, best, target, fork, disconnect, connect)
    requires (exists i :: 0 <= i < |disconnect| && !env.CanUndo(disconnect[i])) || exists i :: 0 <= i < |connect| && !env.CanStore(connect[i])
    ensures DiskFails(w, best, target, env)
  {
    hide OnChain, IsPlan;
    if i :| 0 <= i < |connect| && !env.CanStore(connect[i]) {
      CulpritOffMainChain(w, best, target, fork, disconnect, connect, i);
      assert EnteredFails(w, best, target, env, connect[i]);
    } else {
      var i :| 0 <= i < |disconnect| && !env.CanUndo(disconnect[i]);
      LeavesMainChain(w, best, target, fork, disconnect, connect, i);
      assert LeftFails(w, best, target, env, disconnect[i]);
    }
  }

  lemma CoinsAtTip(w: World, best: Option<Hash>, coins: CoinMap)
    requires TreeOk(w) && CoinsAt(w, best, coins)
    ensures best.Some? ==> best.value in w.tree
  {
  }

  lemma CoinsAtTidy(w: World, best: Option<Hash>, coins: CoinMap)
    requires TreeOk(w) && CoinsAt(w, best, coins)
    ensures Tidy(coins)
  {
  }

  lemma CoinsAtFaded(w: World, best: Option<Hash>, u: CoinMap, v: CoinMap)
    requires TreeOk(w) && CoinsAt(w, best, u) && Faded(u, v) && Tidy(v)
    ensures CoinsAt(w, best, v)
  {
    hide Faded, Tidy, ChainConnects, Replay;
    FadedTransitive(if best.None? then map[] else Replay(w, best.value), u, v);
  }

  lemma PlanFacts(w: World, tip: Option<Hash>, target: Hash, fork: Option<Hash>, disconnect: seq<Hash>, connect: seq<Hash>)
    requires TreeOk(w) && IsPlan(w, tip, target, fork, disconnect, connect)
    ensures target in w.tree && (fork.Some? ==> fork.value in w.tree) && -1 <= ForkHeight(w, fork)
    ensures ForkHeight(w, fork) + 1 + |connect| == w.tree[target].height + 1
    ensures forall i :: 0 <= i < |connect| ==> connect[i] == Path(w, target)[ForkHeight(w, fork) + 1 + i]
    ensures tip.None? ==> connect != [] && fork.None?
    ensures tip.Some? ==>
              && tip.value in w.tree && |disconnect| <= w.tree[tip.value].height
              && (forall i :: 0 <= i < |disconnect| ==> disconnect[i] == Path(w, tip.value)[w.tree[tip.value].height - i])
              && Some(Path(w, tip.value)[w.tree[tip.value].height - |disconnect|]) == TipAt(Path(w, target), ForkHeight(w, fork))
  {
    assert NodeOk(w, target);
  }

  /** A block to be connected is on the way to target but not on the chain to the tip. */
  lemma CulpritOffMainChain(w: World, tip: Option<Hash>, target: Hash, fork: Option<Hash>,
                            disconnect: seq<Hash>, connect: seq<Hash>, i: nat)
    requires TreeOk(w) && IsPlan(w, tip, target, fork, disconnect, connect) && i < |connect|
    ensures target in w.tree && (tip.Some? ==> tip.value in w.tree)
    ensures OnChain(w, target, connect[i]) && (tip.Some? ==> !OnChain(w, tip.value, connect[i]))
    ensures connect[i] !in LinksAt(w, tip)
  {
    hide Path, PathLinks, TreeOk, NodeOk;
    PathAt(w, target, ForkHeight(w, fork) + 1 + i);
    if tip.Some? {
      LinksMarkMainChain(w, tip.value, connect[i]);
    }
  }

  /** A block to be disconnected is on the chain to the tip but not on the way to target. */
  lemma LeavesMainChain(w: World, tip: Option<Hash>, target: Hash, fork: Option<Hash>,
                        disconnect: seq<Hash>, connect: seq<Hash>, i: nat)
    requires TreeOk(w) && IsPlan(w, tip, target, fork, disconnect, connect) && i < |disconnect|
    ensures tip.Some? && tip.value in w.tree && target in w.tree
    ensures OnChain(w, tip.value, disconnect[i]) && !OnChain(w, target, disconnect[i])
  {
    hide Path, TreeOk, NodeOk;
    PathAt(w, tip.value, w.tree[tip.value].height - i);
  }

  lemma TipIsLast(w: World, tip: Hash)
    requires TreeOk(w) && tip in w.tree
    ensures Path(w, tip)[w.tree[tip].height] == tip
  {
  }

  /** A known block above genesis has undo data. */
  lemma PathBlockInUndo(w: World, undo: map<Hash, BlockUndoData>, tip: Hash, k: nat)
    requires TreeOk(w) && tip in w.tree && 1 <= k <= w.tree[tip].height && Known(w, undo, Path(w, tip)[k])
    ensures Path(w, tip)[k] in undo && Path(w, tip)[k] in w.tree
    ensures w.tree[Path(w, tip)[k]].prev == Some(Path(w, tip)[k - 1])
  {
    hide Path;
    PathStep(w, tip, k);
    assert NodeOk(w, Path(w, tip)[k]);
  }

  /** What ConnectBlock relies on about the block and the view it is given, and what its
      checks decide: on a database that agrees with the parent's replay, a block is rejected
      exactly when its chain does not connect. */
  lemma NodeFacts(w: World, h: Hash, u: CoinMap)
    requires TreeOk(w) && h in w.tree && CoinsAt(w, w.tree[h].prev, u)
    ensures Tidy(u) && w.tree[h].block.hash == h && (h == w.genesis <==> w.tree[h].prev.None?)
    ensures !BlockOk(w.rules, w.tree[h].block) ==> !ChainConnects(w, h)
    ensures h == w.genesis && BlockOk(w.rules, w.tree[h].block) ==> CoinsAt(w, Some(h), u)
    ensures h != w.genesis ==>
              && w.tree[h].prev.value in w.tree && w.tree[h].height >= 1 && !(w.rules.bip30Exempt)(w.tree[h].height, h)
              && (Connects(w.rules, u, w.tree[h].block, w.tree[h].height) <==> ChainConnects(w, h))
  {
    hide Total, Faded, Tidy, Connects, CoinsOnTop, BlockOk;
    assert NodeOk(w, h);
    if h != w.genesis {
      assert NodeOk(w, w.tree[h].prev.value);
      ConnectAgrees(w, h, u);
      if !BlockOk(w.rules, w.tree[h].block) {
        NotConnecting(w.rules, u, w.tree[h].block, w.tree[h].height);
      }
    }
  }

  lemma NotConnecting(rules: Rules, u: CoinMap, block: Block, height: int)
    requires !BlockOk(rules, block)
    ensures !Connects(rules, u, block, height)
  {
  }

  lemma ConnectedFacts(u: CoinMap, n: Chain.Node)
    requires n.block.vtx != []
    ensures UndoFor(u, n) == StoredBlockUndo(BlockUndo(u, n.block.vtx, n.height, |n.block.vtx|))
    ensures SupplyChange(u, n.block, n.height)
            == BlockValueOut(n.block.vtx, |n.block.vtx|) - BlockValueIn(u, n.block.vtx, n.height, |n.block.vtx|)
  {
  }

  /** A block whose chain does not connect has nothing stored, so writing its supply is harmless. */
  lemma KeepStored(w: World, undo: map<Hash, BlockUndoData>, supply: map<Hash, int>, h: Hash, v: int)
    requires TreeOk(w) && Stored(w, undo, supply) && h in w.tree && !ChainConnects(w, h) && h != w.genesis
    ensures Stored(w, undo, supply[h := v])
  {
    hide Total, ChainConnects, Replay, UndoFor;
    assert h in undo ==> StoredFor(w, undo, supply, h);
    forall k | k in undo ensures StoredFor(w, undo, supply[h := v], k) {
      assert StoredFor(w, undo, supply, k);
    }
  }

  // ---------- candidates ----------

  lemma {:induction false} BestCandidateExists(tree: Tree, s: set<Hash>)
    requires s != {} && s <= tree.Keys
    ensures exists top :: top in s && forall c :: c in s ==> tree[c].work <= tree[top].work && (tree[c].work == tree[top].work ==> top <= c)
    decreases s
  {
    var x :| x in s;
    if s != {x} {
      var rest := s - {x};
      assert x !in rest && s == rest + {x};
      BestCandidateExists(tree, rest);
      var t :| t in rest && forall c :: c in rest ==> tree[c].work <= tree[t].work && (tree[c].work == tree[t].work ==> t <= c);
      var top := if tree[x].work > tree[t].work || (tree[x].work == tree[t].work && x < t) then x else t;
      assert top in s && forall c :: c in s ==> tree[c].work <= tree[top].work && (tree[c].work == tree[top].work ==> top <= c);
    } else {
      assert x in s && forall c :: c in s ==> tree[c].work <= tree[x].work && (tree[c].work == tree[x].work ==> x <= c);
    }
  }

  method MarkDown(tree: Tree, top: Hash, bad: Hash, failed: set<Hash>, candidates: set<Hash>, ghost w: World)
    returns (failed': set<Hash>, candidates': set<Hash>)
    requires TreeOk(w) && tree == w.tree && top in tree && bad in tree && OnChain(w, top, bad) && top != bad
    requires candidates !! failed && candidates + failed <= tree.Keys && bad in failed
    ensures candidates' <= candidates - {top} && failed' >= failed
    ensures candidates' !! failed' && candidates' + failed' <= tree.Keys
  {
    hide TreeOk, Path, OnChain;
    SelfOnChain(w, top);
    OnChainHeight(w, top, bad);
    failed', candidates' := failed, candidates;
    var at := top;
    while at != bad
      invariant at in tree && OnChain(w, top, at) && tree[at].height >= tree[bad].height >= 0
      invariant candidates' <= candidates && failed' >= failed
      invariant at != top ==> top !in candidates'
      invariant candidates' !! failed' && candidates' + failed' <= tree.Keys
      decreases tree[at].height
    {
      MarkStep(w, top, bad, at);
      failed' := failed' + {at};
      candidates' := candidates' - {at};
      at := tree[at].prev.value;
    }
  }

  lemma OnChainHeight(w: World, top: Hash, h: Hash)
    requires TreeOk(w) && top in w.tree && OnChain(w, top, h)
    ensures 0 <= w.tree[h].height <= w.tree[top].height
  {
  }

  lemma AncestryStep(w: World, top: Hash, at: Hash)
    requires TreeOk(w) && top in w.tree && OnChain(w, top, at) && w.tree[at].prev.Some?
    ensures w.tree[at].prev.value in w.tree && OnChain(w, top, w.tree[at].prev.value)
    ensures w.tree[w.tree[at].prev.value].height == w.tree[at].height - 1 >= 0
    ensures w.tree[w.tree[at].prev.value].work < w.tree[at].work
  {
    hide Path;
    ParentIsLower(w, at);
    OnChainParent(w, top, at);
    WorkIncreases(w, at);
  }

  lemma MarkStep(w: World, top: Hash, bad: Hash, at: Hash)
    requires TreeOk(w) && top in w.tree && OnChain(w, top, at) && OnChain(w, top, bad) && at != bad
    requires w.tree[at].height >= w.tree[bad].height
    ensures w.tree[at].prev.Some? && w.tree[at].prev.value in w.tree && OnChain(w, top, w.tree[at].prev.value)
    ensures w.tree[w.tree[at].prev.value].height == w.tree[at].height - 1 >= w.tree[bad].height >= 0
  {
    OnChainParent(w, top, at);
  }

  // ---------- growing the tree ----------

  /** Two trees that do not contradict each other. */
  ghost predicate Agree(w: World, w': World) {
    && w.rules == w'.rules && w.genesis == w'.genesis
    && forall h :: h in w.tree && h in w'.tree ==> w'.tree[h] == w.tree[h]
  }

  ghost predicate Grows(w: World, w': World) {
    Agree(w, w') && w.tree.Keys <= w'.tree.Keys
  }

  /** A block known to both has the same chain in both. */
  lemma {:induction false} GrowKeepsChain(w: World, w': World, h: Hash)
    requires TreeOk(w) && TreeOk(w') && Agree(w, w') && h in w.tree && h in w'.tree
    ensures Path(w', h) == Path(w, h) && Replay(w', h) == Replay(w, h)
    ensures ChainConnects(w', h) == ChainConnects(w, h)
    decreases w.tree[h].height
  {
    hide CoinsOnTop, Connects, BlockOk;
    assert NodeOk(w, h) && NodeOk(w', h);
    if w.tree[h].prev.Some? {
      assert NodeOk(w, w.tree[h].prev.value);
      GrowKeepsChain(w, w', w.tree[h].prev.value);
    }
  }

  lemma GrowTree(w: World, h: Hash, n: Chain.Node, undo: map<Hash, BlockUndoData>, supply: map<Hash, int>, best: Option<Hash>, coins: CoinMap)
    requires TreeOk(w) && Stored(w, undo, supply) && CoinsAt(w, best, coins) && KnownTip(w, undo, best) && h !in w.tree
    requires h == w.genesis <==> n.prev.None?
    requires n.prev.Some? ==> n.prev.value in w.tree && !(w.rules.bip30Exempt)(n.height, h)
    requires n.block.hash == h && n.height == (if n.prev.None? then 0 else w.tree[n.prev.value].height + 1)
    requires n.work == (if n.prev.None? then 0 else w.tree[n.prev.value].work) + Target.BlockWork(w.rules.minLen, n.block.bits)
    ensures var w' := w.(tree := w.tree[h := n]);
            && TreeOk(w') && Stored(w', undo, supply) && CoinsAt(w', best, coins) && KnownTip(w', undo, best)
            && (best.Some? ==> best.value in w.tree) && LinksAt(w', best) == LinksAt(w, best)
  {
    hide Target.BlockWork, TreeOk, Stored, CoinsAt, Path;
    GrowTreeOk(w, h, n);
    StoredGrows(w, w.(tree := w.tree[h := n]), undo, supply);
    CoinsGrow(w, w.(tree := w.tree[h := n]), best, coins);
  }

  lemma StoredGrows(w: World, w': World, undo: map<Hash, BlockUndoData>, supply: map<Hash, int>)
    requires TreeOk(w) && TreeOk(w') && Grows(w, w') && Stored(w, undo, supply)
    ensures Stored(w', undo, supply)
  {
    hide TreeOk, Path, Replay, ChainConnects, Total, UndoFor;
    forall k | k in undo ensures StoredFor(w', undo, supply, k) {
      assert StoredFor(w, undo, supply, k);
      GrowKeepsChain(w, w', k);
      GrowKeepsChain(w, w', w.tree[k].prev.value);
    }
  }

  lemma CoinsGrow(w: World, w': World, best: Option<Hash>, coins: CoinMap)
    requires TreeOk(w) && TreeOk(w') && Grows(w, w') && CoinsAt(w, best, coins)
    ensures CoinsAt(w', best, coins) && (best.Some? ==> best.value in w.tree) && LinksAt(w', best) == LinksAt(w, best)
  {
    hide TreeOk, Path, Replay, ChainConnects, Faded, Tidy, PathLinks;
    if best.Some? {
      GrowKeepsChain(w, w', best.value);
    }
  }

  lemma GrowTreeOk(w: World, h: Hash, n: Chain.Node)
    requires TreeOk(w) && h !in w.tree
    requires h == w.genesis <==> n.prev.None?
    requires n.prev.Some? ==> n.prev.value in w.tree && !(w.rules.bip30Exempt)(n.height, h)
    requires n.block.hash == h && n.height == (if n.prev.None? then 0 else w.tree[n.prev.value].height + 1)
    requires n.work == (if n.prev.None? then 0 else w.tree[n.prev.value].work) + Target.BlockWork(w.rules.minLen, n.block.bits)
    ensures TreeOk(w.(tree := w.tree[h := n])) && Grows(w, w.(tree := w.tree[h := n]))
  {
    hide Target.BlockWork;
    var w' := w.(tree := w.tree[h := n]);
    forall k | k in w'.tree ensures NodeOk(w', k) {
      if k != h {
        assert NodeOk(w, k);
      } else if n.prev.Some? {
        assert NodeOk(w, n.prev.value);
      }
    }
  }

  // ---------- what a node can rely on, and whole runs ----------

  /** In every valid state: the coins on show are the replay of the chain to the tip, to the
      letter for every transaction t whose version is not negative; the recorded supply is
      their value and within what the chain minted; and the main chain is exactly the blocks h
      that pnext marks. */
  lemma NodeSummary(node: NodeState, h: Hash, t: Hash)
    requires node.Valid() && node.best.Some?
    ensures var w := node.W(); var tip := node.best.value; var coins := node.coinsTip.Contents();
            && TreeOk(w) && tip in w.tree && ChainConnects(w, tip)
            && Live(coins, t) == Live(Replay(w, tip), t)
            && (Live(coins, t) ==> FadedRecord(Replay(w, tip)[t], coins[t])
                                   && (Replay(w, tip)[t].version >= 0 ==> coins[t] == Replay(w, tip)[t]))
            && SupplyOf(node.supply, tip) == Total(coins) <= MintSum(w, tip)
            && (h in node.pnext || h == tip <==> OnChain(w, tip, h))
  {
    hide ChainConnects, Replay, Faded, Tidy, Total, MintSum, OnChain, Path, PathLinks;
    var w := node.W();
    KnownSupply(w, node.undo, node.supply, node.best.value);
    FadedTotal(Replay(w, node.best.value), node.coinsTip.Contents());
    FadedAt(Replay(w, node.best.value), node.coinsTip.Contents(), t);
    SupplyWithinMint(w, node.best.value);
    LinksMarkMainChain(w, node.best.value, h);
  }

  /** The coins depend on the tip alone, not on how it was reached: two nodes of the same
      network with the same tip show the same coins and have recorded the same supply,
      whatever other blocks they know and whatever reorganisations and flushes they went
      through. Only a negative version may be cut at one and whole at the other. */
  lemma SameTipSameCoins(a: NodeState, b: NodeState)
    requires a.Valid() && b.Valid() && a.best == b.best && a.best.Some? && Agree(a.W(), b.W())
    ensures SameButVersions(a.coinsTip.Contents(), b.coinsTip.Contents())
    ensures SupplyOf(a.supply, a.best.value) == SupplyOf(b.supply, b.best.value)
    ensures a.pnext == b.pnext
  {
    hide ChainConnects, Replay, Faded, SameButVersions, Tidy, Total, Path, PathLinks;
    var tip := a.best.value;
    GrowKeepsChain(a.W(), b.W(), tip);
    FadedFromOne(Replay(a.W(), tip), a.coinsTip.Contents(), b.coinsTip.Contents());
    KnownSupply(a.W(), a.undo, a.supply, tip);
    KnownSupply(b.W(), b.undo, b.supply, tip);
  }

  /** A block is offered only once, with a known parent unless it is the genesis block. */
  predicate Acceptable(rules: Rules, genesis: Hash, tree: Tree, block: Block, prevHash: Hash) {
    && block.hash !in tree && (block.hash == genesis <==> prevHash !in tree)
    && (prevHash in tree ==> !(rules.bip30Exempt)(tree[prevHash].height + 1, block.hash))
  }

  /** Any sequence of arriving blocks, with any failures on the way, leaves a valid node. */
  method Run(node: NodeState, arrivals: seq<(Block, Hash, Env)>)
    requires node.Valid()
    modifies node, node.coinsTip.Repr
    ensures node.Valid() && old(node.tree).Keys <= node.tree.Keys
  {
    for i := 0 to |arrivals|
      invariant node.Valid() && old(node.tree).Keys <= node.tree.Keys
    {
      var (block, prevHash, env) := arrivals[i];
      if Acceptable(node.rules, node.genesis, node.tree, block, prevHash) {
        var r := node.AddToBlockIndex(block, prevHash, env);
      }
    }
  }
}
