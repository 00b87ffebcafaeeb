/** Finding the fork between two chains, and the pnext pointers that mark a chain.
    (src/main.cpp, SetBestChain lines 1716-1740 and 1816-1824) */
module Links {
  import opened Basics
  import opened Coins
  import opened Chain

  /** The pnext pointers of a chain: every block but the last points to its successor. */
  ghost function PathLinks(p: seq<Hash>): map<Hash, Hash> {
    if |p| < 2 then map[] else PathLinks(p[..|p| - 1])[p[|p| - 2] := p[|p| - 1]]
  }

  ghost function LinksAt(w: World, best: Option<Hash>): map<Hash, Hash>
    requires TreeOk(w) && (best.Some? ==> best.value in w.tree)
  {
    if best.None? then map[] else PathLinks(Path(w, best.value))
  }

  lemma PathDistinct(w: World, h: Hash)
    requires TreeOk(w) && h in w.tree
    ensures Distinct(Path(w, h))
  {
    var p := Path(w, h);
    forall i, j | 0 <= i < j < |p| ensures p[i] != p[j] {
      PathAt(w, h, i);
      PathAt(w, h, j);
    }
  }

  lemma {:induction false} PathLinksAt(p: seq<Hash>, a: Hash)
    requires Distinct(p)
    ensures a in PathLinks(p) <==> a in p[..if |p| == 0 then 0 else |p| - 1]
    ensures forall k :: 0 <= k < |p| - 1 ==> p[k] in PathLinks(p) && PathLinks(p)[p[k]] == p[k + 1]
  {
    if |p| >= 2 {
      var q := p[..|p| - 1];
      PathLinksAt(q, a);
      assert p[..|p| - 1] == q[..|q| - 1] + [p[|p| - 2]];
      forall k | 0 <= k < |p| - 1 ensures p[k] in PathLinks(p) && PathLinks(p)[p[k]] == p[k + 1] {
        if k < |q| - 1 {
          assert q[k] in PathLinks(q) && PathLinks(q)[q[k]] == q[k + 1];
        }
      }
    }
  }

  /** With pnext as on the chain to best, a block has a successor or is best itself exactly
      when it lies on that chain: what IsInMainChain tests. */
  lemma LinksMarkMainChain(w: World, best: Hash, h: Hash)
    requires TreeOk(w) && best in w.tree
    ensures h in LinksAt(w, Some(best)) || h == best <==> OnChain(w, best, h)
    ensures h in LinksAt(w, Some(best)) ==>
              var next := LinksAt(w, Some(best))[h]; OnChain(w, best, next) && w.tree[next].prev == Some(h)
  {
    var p := Path(w, best);
    PathDistinct(w, best);
    PathLinksAt(p, h);
    OnChainIffInPath(w, best, h);
    assert p == p[..|p| - 1] + [best];
    if h in PathLinks(p) {
      var k :| 0 <= k < |p| - 1 && p[k] == h;
      PathStep(w, best, k + 1);
      OnChainIffInPath(w, best, p[k + 1]);
    }
  }

  /** Cutting the last link of a chain. */
  lemma CutLink(p: seq<Hash>)
    requires |p| >= 2 && Distinct(p)
    ensures PathLinks(p) - {p[|p| - 2]} == PathLinks(p[..|p| - 1])
  {
    var q := p[..|p| - 1];
    PathLinksAt(q, p[|p| - 2]);
    assert p[|p| - 2] !in PathLinks(q);
  }

  // ---------- the fork ----------

  /** The highest block two chains share. */
  ghost predicate IsFork(w: World, a: Hash, b: Hash, fork: Hash)
    requires TreeOk(w) && a in w.tree && b in w.tree
  {
    && OnChain(w, a, fork) && OnChain(w, b, fork)
    && (forall k :: w.tree[fork].height < k <= w.tree[a].height && k <= w.tree[b].height ==> Path(w, a)[k] != Path(w, b)[k])
  }

  lemma OnChainParent(w: World, tip: Hash, h: Hash)
    requires TreeOk(w) && tip in w.tree && OnChain(w, tip, h) && w.tree[h].height > 0
    ensures w.tree[h].prev.Some? && w.tree[h].prev.value in w.tree
    ensures OnChain(w, tip, w.tree[h].prev.value) && w.tree[w.tree[h].prev.value].height == w.tree[h].height - 1
  {
    var k := w.tree[h].height;
    PathStep(w, tip, k);
    PathAt(w, tip, k - 1);
  }

  lemma OnChainAtZero(w: World, tip: Hash, h: Hash)
    requires TreeOk(w) && tip in w.tree && OnChain(w, tip, h) && w.tree[h].height == 0
    ensures h == w.genesis
  {
    PathsShareGenesis(w, tip);
  }

  method FindFork(tree: Tree, best: Hash, target: Hash, ghost w: World) returns (fork: Hash)
    requires TreeOk(w) && tree == w.tree && best in tree && target in tree
    ensures fork in tree && IsFork(w, best, target, fork)
  {
    hide TreeOk, OnChain, Path;
    SelfOnChain(w, best);
    SelfOnChain(w, target);
    fork := best;
    var longer := target;
    while fork != longer
      invariant fork in tree && longer in tree && OnChain(w, best, fork) && OnChain(w, target, longer)
      invariant 0 <= tree[fork].height && 0 <= tree[longer].height
      invariant tree[longer].height >= tree[fork].height || longer == target
      invariant forall k :: tree[fork].height < k <= tree[best].height && k <= tree[target].height ==>
                  Path(w, best)[k] != Path(w, target)[k]
      decreases tree[fork].height + tree[longer].height
    {
      ghost var start := tree[longer].height;
      while tree[longer].height > tree[fork].height
        invariant longer in tree && OnChain(w, target, longer) && 0 <= tree[longer].height
        invariant tree[longer].height >= tree[fork].height || longer == target
        invariant tree[longer].height <= start
        decreases tree[longer].height
      {
        OnChainParent(w, target, longer);
        longer := tree[longer].prev.value;
      }
      if fork == longer {
        break;
      }
      ForkStep(w, best, target, fork, longer);
      fork := tree[fork].prev.value;
    }
  }

  lemma SelfOnChain(w: World, h: Hash)
    requires TreeOk(w) && h in w.tree
    ensures OnChain(w, h, h) && 0 <= w.tree[h].height && |Path(w, h)| == w.tree[h].height + 1
  {
    assert NodeOk(w, h);
  }

  lemma ForkStep(w: World, best: Hash, target: Hash, fork: Hash, longer: Hash)
    requires TreeOk(w) && best in w.tree && target in w.tree
    requires OnChain(w, best, fork) && OnChain(w, target, longer) && fork != longer
    requires w.tree[longer].height <= w.tree[fork].height
    requires w.tree[longer].height >= w.tree[fork].height || longer == target
    ensures w.tree[fork].height > 0 && w.tree[fork].prev.Some? && w.tree[fork].prev.value in w.tree
    ensures OnChain(w, best, w.tree[fork].prev.value) && w.tree[w.tree[fork].prev.value].height == w.tree[fork].height - 1
    ensures w.tree[fork].height <= w.tree[target].height ==>
              Path(w, best)[w.tree[fork].height] != Path(w, target)[w.tree[fork].height]
  {
    if w.tree[fork].height == 0 {
      OnChainAtZero(w, best, fork);
      OnChainAtZero(w, target, longer);
    } else {
      OnChainParent(w, best, fork);
    }
  }

  // ---------- the lists of blocks to disconnect and to connect ----------

  /** Position of a fork that may not exist: below genesis when there is no tip yet. */
  ghost function ForkHeight(w: World, fork: Option<Hash>): int
    requires fork.Some? ==> fork.value in w.tree
  {
    if fork.None? then -1 else w.tree[fork.value].height
  }

  ghost function TipAt(p: seq<Hash>, k: int): Option<Hash>
    requires -1 <= k < |p|
  {
    if k < 0 then None else Some(p[k])
  }

  /** Walks from a block down to, but not including, an ancestor. */
  method Trail(tree: Tree, from: Hash, fork: Option<Hash>, ghost w: World) returns (trail: seq<Hash>)
    requires TreeOk(w) && tree == w.tree && from in tree
    requires fork.Some? ==> OnChain(w, from, fork.value)
    ensures |trail| == tree[from].height - ForkHeight(w, fork)
    ensures forall i :: 0 <= i < |trail| ==> trail[i] == Path(w, from)[tree[from].height - i]
  {
    hide TreeOk, Path, OnChain;
    trail := [];
    SelfOnChain(w, from);
    TrailStart(w, from, fork);
    var at := Some(from);
    while at != fork
      invariant |trail| <= tree[from].height - ForkHeight(w, fork)
      invariant at == TipAt(Path(w, from), tree[from].height - |trail|)
      invariant forall i :: 0 <= i < |trail| ==> trail[i] == Path(w, from)[tree[from].height - i]
      decreases tree[from].height - |trail|
    {
      TrailStep(w, from, fork, |trail|);
      trail := trail + [at.value];
      at := tree[at.value].prev;
    }
    TrailEnd(w, from, fork, |trail|);
  }

  lemma TrailStart(w: World, from: Hash, fork: Option<Hash>)
    requires TreeOk(w) && from in w.tree && (fork.Some? ==> OnChain(w, from, fork.value))
    ensures fork.Some? ==> fork.value in w.tree
    ensures -1 <= ForkHeight(w, fork) <= w.tree[from].height
    ensures fork == TipAt(Path(w, from), ForkHeight(w, fork))
  {
    assert NodeOk(w, from);
  }

  lemma TrailStep(w: World, from: Hash, fork: Option<Hash>, n: nat)
    requires TreeOk(w) && from in w.tree && (fork.Some? ==> OnChain(w, from, fork.value))
    requires n <= w.tree[from].height - ForkHeight(w, fork) && ForkHeight(w, fork) >= -1
    requires TipAt(Path(w, from), w.tree[from].height - n) != fork
    ensures n < w.tree[from].height - ForkHeight(w, fork)
    ensures var at := TipAt(Path(w, from), w.tree[from].height - n);
            at.Some? && at.value in w.tree && w.tree[at.value].prev == TipAt(Path(w, from), w.tree[from].height - n - 1)
  {
    TrailStart(w, from, fork);
    if n < w.tree[from].height - ForkHeight(w, fork) {
      PathStep(w, from, w.tree[from].height - n);
    }
  }

  lemma TrailEnd(w: World, from: Hash, fork: Option<Hash>, n: nat)
    requires TreeOk(w) && from in w.tree && (fork.Some? ==> OnChain(w, from, fork.value))
    requires n <= w.tree[from].height - ForkHeight(w, fork) && ForkHeight(w, fork) >= -1
    requires TipAt(Path(w, from), w.tree[from].height - n) == fork
    ensures n == w.tree[from].height - ForkHeight(w, fork)
  {
    hide TreeOk, Path;
    if fork.Some? {
      PathAt(w, from, w.tree[from].height - n);
    }
  }

  function Reverse(s: seq<Hash>): (r: seq<Hash>)
    ensures |r| == |s| && forall i :: 0 <= i < |s| ==> r[i] == s[|s| - 1 - i]
  {
    if s == [] then [] else Reverse(s[1..]) + [s[0]]
  }

  /** A plan to move from the chain ending in tip to the one ending in target: their fork,
      the blocks above it on the old chain, tip first, and on the new chain, lowest first. */
  ghost predicate IsPlan(w: World, tip: Option<Hash>, target: Hash, fork: Option<Hash>, disconnect: seq<Hash>, connect: seq<Hash>)
    requires TreeOk(w)
  {
    && target in w.tree && (tip.Some? ==> tip.value in w.tree)
    && (tip.None? <==> fork.None?) && (fork.Some? ==> fork.value in w.tree && IsFork(w, tip.value, target, fork.value))
    && |connect| == w.tree[target].height - ForkHeight(w, fork) && ForkHeight(w, fork) >= -1
    && (forall i :: 0 <= i < |connect| ==> connect[i] == Path(w, target)[ForkHeight(w, fork) + 1 + i])
    && (if tip.None? then disconnect == [] else
          && |disconnect| == w.tree[tip.value].height - ForkHeight(w, fork) <= w.tree[tip.value].height
          && (forall i :: 0 <= i < |disconnect| ==> disconnect[i] == Path(w, tip.value)[w.tree[tip.value].height - i]))
  }

  method Plan(tree: Tree, tip: Option<Hash>, target: Hash, ghost w: World)
    returns (fork: Option<Hash>, disconnect: seq<Hash>, connect: seq<Hash>)
    requires TreeOk(w) && tree == w.tree && target in tree && (tip.Some? ==> tip.value in tree)
    ensures IsPlan(w, tip, target, fork, disconnect, connect)
  {
    hide TreeOk, Path;
    fork, disconnect := None, [];
    SelfOnChain(w, target);
    if tip.Some? {
      SelfOnChain(w, tip.value);
      var f := FindFork(tree, tip.value, target, w);
      fork := Some(f);
      disconnect := Trail(tree, tip.value, fork, w);
    }
    var trail := Trail(tree, target, fork, w);
    connect := Reverse(trail);
  }

  // ---------- updating pnext ----------

  /** Clearing the links of the disconnected blocks, then setting those of the connected
      ones, turns the links of one chain into those of the other. */
  method Relink(pnext: map<Hash, Hash>, tree: Tree, best: Option<Hash>, target: Hash, fork: Option<Hash>,
                disconnect: seq<Hash>, connect: seq<Hash>, ghost w: World)
    returns (links: map<Hash, Hash>)
    requires TreeOk(w) && tree == w.tree && IsPlan(w, best, target, fork, disconnect, connect)
    requires pnext == LinksAt(w, best)
    ensures links == LinksAt(w, Some(target))
  {
    hide TreeOk, Path, PathLinks;
    links := pnext;
    JoinStart(w, best, target, fork);
    if best.Some? {
      assert Path(w, best.value)[..|Path(w, best.value)|] == Path(w, best.value);
    }
    for i := 0 to |disconnect|
      invariant best.Some? ==> |Path(w, best.value)| == tree[best.value].height + 1
      invariant best.Some? ==> links == PathLinks(Path(w, best.value)[..|Path(w, best.value)| - i])
      invariant best.None? ==> links == map[]
    {
      CutStep(w, best.value, fork.value, i);
      links := links - {tree[disconnect[i]].prev.value};
    }
    for i := 0 to |connect|
      invariant ForkHeight(w, fork) + 1 + |connect| == |Path(w, target)|
      invariant links == PathLinks(Path(w, target)[..ForkHeight(w, fork) + 1 + i])
    {
      JoinStep(w, target, ForkHeight(w, fork) + 1 + i);
      if tree[connect[i]].prev.Some? {
        links := links[tree[connect[i]].prev.value := connect[i]];
      }
    }
    assert Path(w, target)[..|Path(w, target)|] == Path(w, target);
  }

  lemma CutStep(w: World, best: Hash, fork: Hash, i: nat)
    requires TreeOk(w) && best in w.tree && OnChain(w, best, fork)
    requires i < w.tree[best].height - w.tree[fork].height
    ensures var p := Path(w, best); var h := p[w.tree[best].height - i];
            && |p| == w.tree[best].height + 1 && i + 2 <= |p|
            && h in w.tree && w.tree[h].prev.Some?
            && PathLinks(p[..|p| - i]) - {w.tree[h].prev.value} == PathLinks(p[..|p| - (i + 1)])
  {
    hide TreeOk, Path, PathLinks;
    var p := Path(w, best);
    PathStep(w, best, w.tree[best].height - i);
    PathDistinct(w, best);
    var q := p[..|p| - i];
    assert q[|q| - 2] == p[|p| - i - 2];
    CutLink(q);
    assert q[..|q| - 1] == p[..|p| - (i + 1)];
  }

  /** After the cuts only the links up to the fork are left, which the new chain shares. */
  lemma JoinStart(w: World, best: Option<Hash>, target: Hash, fork: Option<Hash>)
    requires TreeOk(w) && target in w.tree && (best.Some? ==> best.value in w.tree) && (best.None? <==> fork.None?)
    requires fork.Some? ==> OnChain(w, best.value, fork.value) && OnChain(w, target, fork.value)
    ensures fork.Some? ==> fork.value in w.tree
    ensures -1 <= ForkHeight(w, fork) <= w.tree[target].height && |Path(w, target)| == w.tree[target].height + 1
    ensures best.Some? ==> |Path(w, best.value)| == w.tree[best.value].height + 1
    ensures best.None? ==> PathLinks(Path(w, target)[..ForkHeight(w, fork) + 1]) == map[]
    ensures best.Some? ==>
              && ForkHeight(w, fork) + 1 <= |Path(w, best.value)|
              && Path(w, best.value)[..ForkHeight(w, fork) + 1] == Path(w, target)[..ForkHeight(w, fork) + 1]
  {
    assert NodeOk(w, target);
    if fork.Some? {
      PathAt(w, best.value, w.tree[fork.value].height);
      PathAt(w, target, w.tree[fork.value].height);
    }
  }

  lemma JoinStep(w: World, target: Hash, k: nat)
    requires TreeOk(w) && target in w.tree && k <= w.tree[target].height
    ensures var p := Path(w, target);
            && k < |p| && p[k] in w.tree && (w.tree[p[k]].prev.Some? <==> k > 0)
            && PathLinks(p[..k + 1]) == if k == 0 then PathLinks(p[..k]) else PathLinks(p[..k])[w.tree[p[k]].prev.value := p[k]]
  {
    hide TreeOk, Path;
    var p := Path(w, target);
    PathStep(w, target, k);
    assert p[..k + 1][..k] == p[..k];
  }
}
