/** Assembling a block from the memory pool: transactions whose parents are still in the pool
    wait until these have been taken. Priorities and fees per kilobyte are floating-point
    numbers in the source; here any order of the heap is allowed, and which transactions pay a
    low fee or have a low priority is given. (src/main.cpp, CreateNewBlock) */
module CreateBlock {
  import opened Basics
  import opened Coins
  import opened Blocks
  import opened Validation

  const BLOCK_OVERHEAD := 1000
  const SIGOPS_OVERHEAD := 100

  /** A transaction that waits for pool transactions. */
  datatype Orphan = Orphan(tx: Tx, dependsOn: set<Hash>)

  /** The working lists; pointers to orphans are positions in the list of orphans. */
  datatype Work = Work(orphans: seq<Orphan>, dependers: map<Hash, seq<nat>>, heap: seq<Tx>)

  // ---------- the pool ----------

  /** The pool in the order of its map. */
  ghost predicate PoolOk(pool: seq<Tx>) {
    && (forall i, j :: 0 <= i < j < |pool| ==> pool[i].txid != pool[j].txid)
    && forall i :: 0 <= i < |pool| ==> TransactionOk(pool[i])
  }

  ghost predicate InPool(pool: seq<Tx>, h: Hash) {
    exists i :: 0 <= i < |pool| && pool[i].txid == h
  }

  /** Every input refers to a record of the coin database, spent or not, or to the pool. */
  ghost predicate Closed(tip: CoinMap, pool: seq<Tx>) {
    forall i, j :: 0 <= i < |pool| && 0 <= j < |pool[i].vin| ==>
      pool[i].vin[j].prevout.hash in tip || InPool(pool, pool[i].vin[j].prevout.hash)
  }

  /** Transactions the first k inputs wait for. */
  function Missing(tip: CoinMap, vin: seq<TxIn>, k: nat): set<Hash>
    requires k <= |vin|
  {
    if k == 0 then {}
    else if vin[k - 1].prevout.hash in tip then Missing(tip, vin, k - 1)
    else Missing(tip, vin, k - 1) + {vin[k - 1].prevout.hash}
  }

  lemma {:induction false} MissingIs(tip: CoinMap, vin: seq<TxIn>, k: nat, h: Hash)
    requires k <= |vin|
    ensures h in Missing(tip, vin, k) <==> h !in tip && exists j :: 0 <= j < k && vin[j].prevout.hash == h
  {
    if k > 0 {
      MissingIs(tip, vin, k - 1, h);
    }
  }

  predicate Eligible(tx: Tx, isFinal: Tx -> bool) {
    !tx.IsCoinBase() && isFinal(tx)
  }

  // ---------- the invariant of the working lists ----------

  /** Every orphan waits exactly for its missing parents that are not yet in the block. */
  ghost predicate WaitsRight(tip: CoinMap, o: Orphan, included: set<Hash>) {
    forall h :: h in o.dependsOn <==> h in Missing(tip, o.tx.vin, |o.tx.vin|) && h !in included
  }

  ghost predicate OrphansOk(tip: CoinMap, orphans: seq<Orphan>, included: set<Hash>) {
    && (forall k :: 0 <= k < |orphans| ==> WaitsRight(tip, orphans[k], included))
    && (forall k, l :: 0 <= k < l < |orphans| ==> orphans[k].tx.txid != orphans[l].tx.txid)
  }

  /** The dependers of a hash are positions of orphans, and include all that wait for it. */
  ghost predicate Linked(orphans: seq<Orphan>, dependers: map<Hash, seq<nat>>) {
    && (forall k, h :: 0 <= k < |orphans| && h in orphans[k].dependsOn ==> h in dependers && k in dependers[h])
    && (forall h :: h in dependers ==> forall j :: 0 <= j < |dependers[h]| ==> dependers[h][j] < |orphans|)
  }

  /** Heap entries are distinct and new; waiting ones are neither on the heap nor taken. */
  ghost predicate Placed(orphans: seq<Orphan>, heap: seq<Tx>, taken: set<Hash>) {
    && (forall i, j :: 0 <= i < j < |heap| ==> heap[i].txid != heap[j].txid)
    && (forall i :: 0 <= i < |heap| ==> heap[i].txid !in taken)
    && (forall k :: 0 <= k < |orphans| && orphans[k].dependsOn != {} ==> orphans[k].tx.txid !in taken)
    && (forall k, i :: 0 <= k < |orphans| && 0 <= i < |heap| && orphans[k].dependsOn != {} ==>
          orphans[k].tx.txid != heap[i].txid)
  }

  /** Everything on the lists comes from the first n eligible pool transactions. */
  ghost predicate FromPool(pool: seq<Tx>, n: nat, isFinal: Tx -> bool, orphans: seq<Orphan>, heap: seq<Tx>)
    requires n <= |pool|
  {
    && (forall k :: 0 <= k < |orphans| ==> Among(pool, n, orphans[k].tx) && Eligible(orphans[k].tx, isFinal))
    && (forall i :: 0 <= i < |heap| ==> Among(pool, n, heap[i]) && Eligible(heap[i], isFinal))
  }

  ghost predicate Among(pool: seq<Tx>, n: nat, tx: Tx)
    requires n <= |pool|
  {
    exists i :: 0 <= i < n && pool[i] == tx
  }

  /** Each of them is on the heap, taken, or waiting. */
  ghost predicate Covered(pool: seq<Tx>, n: nat, isFinal: Tx -> bool, orphans: seq<Orphan>, heap: seq<Tx>, taken: set<Hash>)
    requires n <= |pool|
  {
    forall i :: 0 <= i < n && Eligible(pool[i], isFinal) ==> Somewhere(pool[i], orphans, heap, taken)
  }

  ghost predicate Somewhere(tx: Tx, orphans: seq<Orphan>, heap: seq<Tx>, taken: set<Hash>) {
    tx in heap || tx.txid in taken || exists k :: 0 <= k < |orphans| && orphans[k].tx == tx && orphans[k].dependsOn != {}
  }

  ghost predicate WorkOk(tip: CoinMap, pool: seq<Tx>, n: nat, isFinal: Tx -> bool, w: Work, taken: set<Hash>, included: set<Hash>)
    requires n <= |pool|
  {
    && OrphansOk(tip, w.orphans, included) && Linked(w.orphans, w.dependers) && Placed(w.orphans, w.heap, taken)
    && FromPool(pool, n, isFinal, w.orphans, w.heap) && Covered(pool, n, isFinal, w.orphans, w.heap, taken)
  }

  // ---------- collecting ----------

  /** Links a new orphan, or extends the one under construction. */
  function Depend(w: Work, tx: Tx, at: nat, h: Hash): Work
    requires at <= |w.orphans|
  {
    var orphans := if at == |w.orphans| then w.orphans + [Orphan(tx, {})] else w.orphans;
    var list := if h in w.dependers then w.dependers[h] else [];
    Work(orphans[at := Orphan(orphans[at].tx, orphans[at].dependsOn + {h})], w.dependers[h := list + [at]], w.heap)
  }

  lemma DependLinks(w: Work, tx: Tx, at: nat, h: Hash)
    requires at == |w.orphans| || at == |w.orphans| - 1
    requires Linked(w.orphans, w.dependers)
    ensures var w1 := Depend(w, tx, at, h); Linked(w1.orphans, w1.dependers)
  {
    var w1 := Depend(w, tx, at, h);
    forall k, g | 0 <= k < |w1.orphans| && g in w1.orphans[k].dependsOn ensures g in w1.dependers && k in w1.dependers[g] {
      if k < |w.orphans| && g in w.orphans[k].dependsOn {
        assert g in w.dependers && k in w.dependers[g];
        if g == h {
          assert w1.dependers[g] == w.dependers[g] + [at];
        }
      } else {
        assert g == h && k == at;
        assert w1.dependers[g][|w1.dependers[g]| - 1] == at;
      }
    }
  }

  /** The lists once the inputs of tx have been looked at. */
  method CollectInputs(tip: CoinMap, w: Work, tx: Tx) returns (r: Work, waits: bool)
    requires Linked(w.orphans, w.dependers)
    ensures Linked(r.orphans, r.dependers) && r.heap == w.heap
    ensures !waits ==> r.orphans == w.orphans && Missing(tip, tx.vin, |tx.vin|) == {}
    ensures waits ==> r.orphans == w.orphans + [Orphan(tx, Missing(tip, tx.vin, |tx.vin|))]
                      && Missing(tip, tx.vin, |tx.vin|) != {}
  {
    hide Linked;
    r, waits := w, false;
    var at := |w.orphans|;
    for i := 0 to |tx.vin|
      invariant Linked(r.orphans, r.dependers) && r.heap == w.heap
      invariant !waits ==> r.orphans == w.orphans && Missing(tip, tx.vin, i) == {}
      invariant waits ==> r.orphans == w.orphans + [Orphan(tx, Missing(tip, tx.vin, i))] && Missing(tip, tx.vin, i) != {}
    {
      var h := tx.vin[i].prevout.hash;
      if h !in tip {
        DependLinks(r, tx, at, h);
        NotEmpty(Missing(tip, tx.vin, i + 1), h);
        r := Depend(r, tx, at, h);
        waits := true;
      }
    }
  }

  lemma NotEmpty(s: set<Hash>, h: Hash)
    requires h in s
    ensures s != {}
  {
  }

  /** One pool transaction: skipped, put on the heap, or left waiting. */
  method CollectOne(tip: CoinMap, pool: seq<Tx>, n: nat, isFinal: Tx -> bool, w: Work) returns (r: Work)
    requires PoolOk(pool) && n < |pool| && WorkOk(tip, pool, n, isFinal, w, {}, {})
    ensures WorkOk(tip, pool, n + 1, isFinal, r, {}, {})
  {
    hide OrphansOk, Linked, Placed, FromPool, Covered, PoolOk, Missing;
    var tx := pool[n];
    NewToLists(pool, n, isFinal, w.orphans, w.heap);
    if !Eligible(tx, isFinal) {
      FromPoolMore(pool, n, isFinal, w.orphans, w.heap);
      CoveredSkip(pool, n, isFinal, w.orphans, w.heap);
      return w;
    }
    FromPoolMore(pool, n, isFinal, w.orphans, w.heap);
    var waits;
    r, waits := CollectInputs(tip, w, tx);
    if waits {
      OrphanAdded(tip, pool, n, isFinal, w, Orphan(tx, Missing(tip, tx.vin, |tx.vin|)));
    } else {
      HeapAdded(pool, n, isFinal, w, tx);
      r := r.(heap := r.heap + [tx]);
    }
  }

  lemma NewToLists(pool: seq<Tx>, n: nat, isFinal: Tx -> bool, orphans: seq<Orphan>, heap: seq<Tx>)
    requires PoolOk(pool) && n < |pool| && FromPool(pool, n, isFinal, orphans, heap)
    ensures forall k :: 0 <= k < |orphans| ==> orphans[k].tx.txid != pool[n].txid
    ensures forall i :: 0 <= i < |heap| ==> heap[i].txid != pool[n].txid
  {
    forall k | 0 <= k < |orphans| ensures orphans[k].tx.txid != pool[n].txid {
      assert Among(pool, n, orphans[k].tx);
    }
    forall i | 0 <= i < |heap| ensures heap[i].txid != pool[n].txid {
      assert Among(pool, n, heap[i]);
    }
  }

  lemma FromPoolMore(pool: seq<Tx>, n: nat, isFinal: Tx -> bool, orphans: seq<Orphan>, heap: seq<Tx>)
    requires n < |pool| && FromPool(pool, n, isFinal, orphans, heap)
    ensures FromPool(pool, n + 1, isFinal, orphans, heap)
  {
    forall k | 0 <= k < |orphans| ensures Among(pool, n + 1, orphans[k].tx) {
      assert Among(pool, n, orphans[k].tx);
    }
    forall i | 0 <= i < |heap| ensures Among(pool, n + 1, heap[i]) {
      assert Among(pool, n, heap[i]);
    }
  }

  lemma CoveredSkip(pool: seq<Tx>, n: nat, isFinal: Tx -> bool, orphans: seq<Orphan>, heap: seq<Tx>)
    requires n < |pool| && Covered(pool, n, isFinal, orphans, heap, {}) && !Eligible(pool[n], isFinal)
    ensures Covered(pool, n + 1, isFinal, orphans, heap, {})
  {
    hide Somewhere;
  }

  lemma OrphanAdded(tip: CoinMap, pool: seq<Tx>, n: nat, isFinal: Tx -> bool, w: Work, o: Orphan)
    requires n < |pool| && o.tx == pool[n] && Eligible(o.tx, isFinal) && o.dependsOn != {}
    requires o.dependsOn == Missing(tip, o.tx.vin, |o.tx.vin|)
    requires FromPool(pool, n + 1, isFinal, w.orphans, w.heap) && Covered(pool, n, isFinal, w.orphans, w.heap, {})
    requires OrphansOk(tip, w.orphans, {}) && Placed(w.orphans, w.heap, {})
    requires forall k :: 0 <= k < |w.orphans| ==> w.orphans[k].tx.txid != o.tx.txid
    requires forall i :: 0 <= i < |w.heap| ==> w.heap[i].txid != o.tx.txid
    ensures var orphans := w.orphans + [o];
            && OrphansOk(tip, orphans, {}) && Placed(orphans, w.heap, {})
            && FromPool(pool, n + 1, isFinal, orphans, w.heap) && Covered(pool, n + 1, isFinal, orphans, w.heap, {})
  {
    hide Missing;
    var orphans := w.orphans + [o];
    assert WaitsRight(tip, o, {});
    forall i | 0 <= i < n + 1 && Eligible(pool[i], isFinal) ensures Somewhere(pool[i], orphans, w.heap, {}) {
      if i < n {
        assert Somewhere(pool[i], w.orphans, w.heap, {});
        if k :| 0 <= k < |w.orphans| && w.orphans[k].tx == pool[i] && w.orphans[k].dependsOn != {} {
          assert orphans[k] == w.orphans[k];
        }
      } else {
        assert orphans[|w.orphans|] == o;
      }
    }
  }

  lemma HeapAdded(pool: seq<Tx>, n: nat, isFinal: Tx -> bool, w: Work, tx: Tx)
    requires n < |pool| && tx == pool[n] && Eligible(tx, isFinal)
    requires FromPool(pool, n + 1, isFinal, w.orphans, w.heap) && Covered(pool, n, isFinal, w.orphans, w.heap, {})
    requires Placed(w.orphans, w.heap, {})
    requires forall k :: 0 <= k < |w.orphans| ==> w.orphans[k].tx.txid != tx.txid
    requires forall i :: 0 <= i < |w.heap| ==> w.heap[i].txid != tx.txid
    ensures var heap := w.heap + [tx];
            && Placed(w.orphans, heap, {})
            && FromPool(pool, n + 1, isFinal, w.orphans, heap) && Covered(pool, n + 1, isFinal, w.orphans, heap, {})
  {
    var heap := w.heap + [tx];
    forall i | 0 <= i < n + 1 && Eligible(pool[i], isFinal) ensures Somewhere(pool[i], w.orphans, heap, {}) {
      if i < n {
        assert Somewhere(pool[i], w.orphans, w.heap, {});
      } else {
        assert heap[|w.heap|] == tx;
      }
    }
  }

  method Collect(tip: CoinMap, pool: seq<Tx>, isFinal: Tx -> bool) returns (w: Work)
    requires PoolOk(pool) && Closed(tip, pool)
    ensures WorkOk(tip, pool, |pool|, isFinal, w, {}, {})
  {
    hide WorkOk, PoolOk;
    w := Work([], map[], []);
    NothingYet(tip, pool, isFinal, w);
    for n := 0 to |pool|
      invariant WorkOk(tip, pool, n, isFinal, w, {}, {})
    {
      w := CollectOne(tip, pool, n, isFinal, w);
    }
  }

  lemma NothingYet(tip: CoinMap, pool: seq<Tx>, isFinal: Tx -> bool, w: Work)
    requires w == Work([], map[], [])
    ensures WorkOk(tip, pool, 0, isFinal, w, {}, {})
  {
  }

  // ---------- releasing dependers ----------

  function Waiting(orphans: seq<Orphan>): nat {
    if |orphans| == 0 then 0
    else Waiting(orphans[..|orphans| - 1]) + (if orphans[|orphans| - 1].dependsOn != {} then 1 else 0)
  }

  lemma {:induction false} WaitingUpdate(orphans: seq<Orphan>, k: nat, o: Orphan)
    requires k < |orphans|
    ensures Waiting(orphans[k := o]) == Waiting(orphans) - (if orphans[k].dependsOn != {} then 1 else 0)
                                        + (if o.dependsOn != {} then 1 else 0)
  {
    var n := |orphans| - 1;
    if k < n {
      WaitingUpdate(orphans[..n], k, o);
      assert orphans[k := o][..n] == orphans[..n][k := o];
    } else {
      assert orphans[k := o][..n] == orphans[..n];
    }
  }

  function Without(o: Orphan, h: Hash): Orphan { Orphan(o.tx, o.dependsOn - {h}) }

  /** What the lists promise, apart from what exactly each orphan waits for. */
  ghost predicate ListsOk(pool: seq<Tx>, isFinal: Tx -> bool, orphans: seq<Orphan>, heap: seq<Tx>, taken: set<Hash>) {
    && Placed(orphans, heap, taken) && FromPool(pool, |pool|, isFinal, orphans, heap)
    && Covered(pool, |pool|, isFinal, orphans, heap, taken)
    && forall k, l :: 0 <= k < l < |orphans| ==> orphans[k].tx.txid != orphans[l].tx.txid
  }

  /** One depender: it no longer waits for h, and goes on the heap when it waits for nothing. */
  method ReleaseOne(pool: seq<Tx>, isFinal: Tx -> bool, orphans: seq<Orphan>, heap: seq<Tx>, k: nat, h: Hash, ghost taken: set<Hash>)
    returns (orphans1: seq<Orphan>, heap1: seq<Tx>)
    requires k < |orphans| && ListsOk(pool, isFinal, orphans, heap, taken)
    ensures ListsOk(pool, isFinal, orphans1, heap1, taken) && orphans1 == orphans[k := Without(orphans[k], h)]
    ensures |heap1| + Waiting(orphans1) == |heap| + Waiting(orphans)
  {
    hide ListsOk;
    orphans1, heap1 := orphans, heap;
    WaitingUpdate(orphans, k, Without(orphans[k], h));
    if orphans[k].dependsOn != {} {
      orphans1 := orphans[k := Without(orphans[k], h)];
      if orphans1[k].dependsOn == {} {
        heap1 := heap + [orphans[k].tx];
        Released(pool, isFinal, orphans, heap, k, orphans1, taken);
      } else {
        StillWaiting(pool, isFinal, orphans, heap, k, orphans1, taken);
      }
    } else {
      assert Without(orphans[k], h) == orphans[k];
    }
  }

  lemma Released(pool: seq<Tx>, isFinal: Tx -> bool, orphans: seq<Orphan>, heap: seq<Tx>, k: nat, after: seq<Orphan>, taken: set<Hash>)
    requires k < |orphans| && ListsOk(pool, isFinal, orphans, heap, taken) && orphans[k].dependsOn != {}
    requires after == orphans[k := Orphan(orphans[k].tx, {})]
    ensures ListsOk(pool, isFinal, after, heap + [orphans[k].tx], taken)
  {
    var heap1 := heap + [orphans[k].tx];
    forall i | 0 <= i < |pool| && Eligible(pool[i], isFinal) ensures Somewhere(pool[i], after, heap1, taken) {
      assert Somewhere(pool[i], orphans, heap, taken);
      if l :| 0 <= l < |orphans| && orphans[l].tx == pool[i] && orphans[l].dependsOn != {} {
        if l != k {
          assert after[l] == orphans[l];
        } else {
          assert heap1[|heap|] == pool[i];
        }
      }
    }
    hide Somewhere, Among;
  }

  lemma StillWaiting(pool: seq<Tx>, isFinal: Tx -> bool, orphans: seq<Orphan>, heap: seq<Tx>, k: nat, after: seq<Orphan>, taken: set<Hash>)
    requires k < |orphans| && ListsOk(pool, isFinal, orphans, heap, taken) && orphans[k].dependsOn != {}
    requires |after| == |orphans| && after[k].dependsOn != {} && after == orphans[k := Orphan(orphans[k].tx, after[k].dependsOn)]
    ensures ListsOk(pool, isFinal, after, heap, taken)
  {
    forall i | 0 <= i < |pool| && Eligible(pool[i], isFinal) ensures Somewhere(pool[i], after, heap, taken) {
      assert Somewhere(pool[i], orphans, heap, taken);
      if l :| 0 <= l < |orphans| && orphans[l].tx == pool[i] && orphans[l].dependsOn != {} {
        assert after[l].tx == pool[i] && after[l].dependsOn != {};
      }
    }
    hide Somewhere, Among;
  }

  /** Some orphans, all of those in list, no longer wait for h. */
  ghost predicate Dropped(before: seq<Orphan>, after: seq<Orphan>, list: seq<nat>, h: Hash) {
    && |after| == |before|
    && forall k :: 0 <= k < |before| ==>
         && after[k].tx == before[k].tx
         && (forall g :: g in after[k].dependsOn ==> g in before[k].dependsOn)
         && (forall g :: g in before[k].dependsOn && g != h ==> g in after[k].dependsOn)
         && (k in list ==> h !in after[k].dependsOn)
  }

  lemma DroppedOne(before: seq<Orphan>, mid: seq<Orphan>, list: seq<nat>, k: nat, h: Hash)
    requires Dropped(before, mid, list, h) && k < |mid|
    ensures Dropped(before, mid[k := Without(mid[k], h)], list + [k], h)
  {
  }

  lemma AllDropped(tip: CoinMap, before: seq<Orphan>, after: seq<Orphan>, dependers: map<Hash, seq<nat>>, h: Hash, included: set<Hash>)
    requires OrphansOk(tip, before, included) && Linked(before, dependers)
    requires Dropped(before, after, if h in dependers then dependers[h] else [], h)
    ensures OrphansOk(tip, after, included + {h}) && Linked(after, dependers)
  {
    hide Missing;
    forall k | 0 <= k < |after| ensures WaitsRight(tip, after[k], included + {h}) {
      assert WaitsRight(tip, before[k], included);
      if h in before[k].dependsOn {
        assert h in dependers && k in dependers[h];
      }
    }
  }

  /** h has been taken into the block: its dependers are told. */
  method Release(tip: CoinMap, pool: seq<Tx>, isFinal: Tx -> bool, w: Work, h: Hash, ghost taken: set<Hash>, ghost included: set<Hash>)
    returns (r: Work)
    requires WorkOk(tip, pool, |pool|, isFinal, w, taken, included)
    ensures WorkOk(tip, pool, |pool|, isFinal, r, taken, included + {h})
    ensures |r.heap| + Waiting(r.orphans) == |w.heap| + Waiting(w.orphans)
  {
    hide OrphansOk, Placed, FromPool, Covered, ListsOk, Dropped;
    AsLists(tip, pool, isFinal, w, taken, included);
    var orphans, heap := w.orphans, w.heap;
    var list := if h in w.dependers then w.dependers[h] else [];
    DroppedNone(orphans, h);
    for j := 0 to |list|
      invariant Dropped(w.orphans, orphans, list[..j], h) && |orphans| == |w.orphans|
      invariant ListsOk(pool, isFinal, orphans, heap, taken)
      invariant |heap| + Waiting(orphans) == |w.heap| + Waiting(w.orphans)
    {
      DroppedOne(w.orphans, orphans, list[..j], list[j], h);
      assert list[..j + 1] == list[..j] + [list[j]];
      orphans, heap := ReleaseOne(pool, isFinal, orphans, heap, list[j], h, taken);
    }
    assert list[..|list|] == list;
    AllDropped(tip, w.orphans, orphans, w.dependers, h, included);
    FromLists(pool, isFinal, orphans, heap, taken);
    r := Work(orphans, w.dependers, heap);
  }

  lemma DroppedNone(orphans: seq<Orphan>, h: Hash)
    ensures Dropped(orphans, orphans, [], h)
  {
  }

  lemma AsLists(tip: CoinMap, pool: seq<Tx>, isFinal: Tx -> bool, w: Work, taken: set<Hash>, included: set<Hash>)
    requires WorkOk(tip, pool, |pool|, isFinal, w, taken, included)
    ensures ListsOk(pool, isFinal, w.orphans, w.heap, taken)
  {
    hide Placed, FromPool, Covered, Linked;
  }

  lemma FromLists(pool: seq<Tx>, isFinal: Tx -> bool, orphans: seq<Orphan>, heap: seq<Tx>, taken: set<Hash>)
    requires ListsOk(pool, isFinal, orphans, heap, taken)
    ensures Placed(orphans, heap, taken) && FromPool(pool, |pool|, isFinal, orphans, heap)
    ensures Covered(pool, |pool|, isFinal, orphans, heap, taken)
  {
    hide Placed, FromPool, Covered;
  }

  function RemoveAt(heap: seq<Tx>, i: nat): seq<Tx>
    requires i < |heap|
  {
    heap[..i] + heap[i + 1..]
  }

  lemma RemovedAt(heap: seq<Tx>, i: nat, j: nat)
    requires i < |heap| && j < |heap| - 1
    ensures RemoveAt(heap, i)[j] == heap[if j < i then j else j + 1]
  {
  }

  lemma PoppedPlaced(orphans: seq<Orphan>, heap: seq<Tx>, i: nat, taken: set<Hash>)
    requires Placed(orphans, heap, taken) && i < |heap|
    ensures Placed(orphans, RemoveAt(heap, i), taken + {heap[i].txid})
  {
    var rest := RemoveAt(heap, i);
    forall j | 0 <= j < |rest| ensures rest[j] == heap[if j < i then j else j + 1] {
      RemovedAt(heap, i, j);
    }
    hide RemoveAt;
  }

  lemma PoppedCovered(pool: seq<Tx>, isFinal: Tx -> bool, orphans: seq<Orphan>, heap: seq<Tx>, i: nat, taken: set<Hash>)
    requires Covered(pool, |pool|, isFinal, orphans, heap, taken) && FromPool(pool, |pool|, isFinal, orphans, heap) && i < |heap|
    ensures Covered(pool, |pool|, isFinal, orphans, RemoveAt(heap, i), taken + {heap[i].txid})
    ensures FromPool(pool, |pool|, isFinal, orphans, RemoveAt(heap, i))
  {
    var rest, t := RemoveAt(heap, i), heap[i].txid;
    forall n | 0 <= n < |pool| && Eligible(pool[n], isFinal) ensures Somewhere(pool[n], orphans, rest, taken + {t}) {
      assert Somewhere(pool[n], orphans, heap, taken);
      if pool[n] in heap {
        var j :| 0 <= j < |heap| && heap[j] == pool[n];
        if j != i {
          RemovedAt(heap, i, if j < i then j else j - 1);
        }
      }
    }
    forall j | 0 <= j < |rest| ensures Among(pool, |pool|, rest[j]) && Eligible(rest[j], isFinal) {
      RemovedAt(heap, i, j);
    }
  }

  /** Taking entry i off the heap. */
  lemma Popped(tip: CoinMap, pool: seq<Tx>, isFinal: Tx -> bool, w: Work, i: nat, taken: set<Hash>, included: set<Hash>)
    requires WorkOk(tip, pool, |pool|, isFinal, w, taken, included) && i < |w.heap|
    ensures WorkOk(tip, pool, |pool|, isFinal, w.(heap := RemoveAt(w.heap, i)), taken + {w.heap[i].txid}, included)
    ensures Among(pool, |pool|, w.heap[i]) && Eligible(w.heap[i], isFinal) && w.heap[i].txid !in taken
  {
    hide OrphansOk, Linked, Covered, Among;
    PoppedPlaced(w.orphans, w.heap, i, taken);
    PoppedCovered(pool, isFinal, w.orphans, w.heap, i, taken);
    hide RemoveAt;
  }

  // ---------- what has been selected ----------

  function TxSigOps(rules: Rules, u: CoinMap, tx: Tx): nat {
    tx.sigOps + P2SHSigOps(rules, u, tx.vin, |tx.vin|)
  }

  function TxFee(u: CoinMap, tx: Tx): int {
    ValueIn(u, tx.vin, |tx.vin|) - SumOut(tx.vout, |tx.vout|)
  }

  function SumSizes(txs: seq<Tx>, k: nat): nat
    requires k <= |txs|
  {
    if k == 0 then 0 else SumSizes(txs, k - 1) + txs[k - 1].size
  }

  function SumSigOps(rules: Rules, tip: CoinMap, txs: seq<Tx>, height: int, k: nat): nat
    requires k <= |txs|
  {
    if k == 0 then 0
    else SumSigOps(rules, tip, txs, height, k - 1) + TxSigOps(rules, CoinsAfter(tip, txs, height, k - 1), txs[k - 1])
  }

  function Sum(s: seq<int>): int { if |s| == 0 then 0 else Sum(s[..|s| - 1]) + s[|s| - 1] }

  /** The transactions after the coinbase, with the totals kept along the way. */
  datatype Progress = Progress(txs: seq<Tx>, fees: seq<int>, sigOps: seq<int>, view: CoinMap,
                               nBlockSize: nat, nBlockSigOps: nat, nFees: int)

  const START := Progress([], [], [], map[], BLOCK_OVERHEAD, SIGOPS_OVERHEAD, 0)

  /** Transaction i passes all checks on top of those before it, and is charged right. */
  ghost predicate EntryOk(rules: Rules, tip: CoinMap, txs: seq<Tx>, height: int, i: nat, fee: int, sigOps: int)
    requires i < |txs|
  {
    var before := CoinsAfter(tip, txs, height, i);
    && InputsOk(before, txs[i], height) && ScriptsOk(rules, before, txs[i], true)
    && fee == TxFee(before, txs[i]) && sigOps == TxSigOps(rules, before, txs[i])
  }

  ghost predicate Accounted(rules: Rules, tip: CoinMap, height: int, p: Progress) {
    && |p.fees| == |p.txs| == |p.sigOps| && p.view == CoinsAfter(tip, p.txs, height, |p.txs|)
    && (forall i :: 0 <= i < |p.txs| ==> EntryOk(rules, tip, p.txs, height, i, p.fees[i], p.sigOps[i]))
    && p.nFees == Sum(p.fees)
    && p.nBlockSize == BLOCK_OVERHEAD + SumSizes(p.txs, |p.txs|)
    && p.nBlockSigOps == SIGOPS_OVERHEAD + SumSigOps(rules, tip, p.txs, height, |p.txs|)
  }

  lemma {:induction false} PrefixCoins(tip: CoinMap, txs: seq<Tx>, tx: Tx, height: int, k: nat)
    requires k <= |txs|
    ensures CoinsAfter(tip, txs + [tx], height, k) == CoinsAfter(tip, txs, height, k)
  {
    hide AfterTx;
    if k > 0 {
      PrefixCoins(tip, txs, tx, height, k - 1);
    }
  }

  lemma {:induction false} PrefixSums(rules: Rules, tip: CoinMap, txs: seq<Tx>, tx: Tx, height: int, k: nat)
    requires k <= |txs|
    ensures SumSizes(txs + [tx], k) == SumSizes(txs, k)
    ensures SumSigOps(rules, tip, txs + [tx], height, k) == SumSigOps(rules, tip, txs, height, k)
  {
    hide TxSigOps, CoinsAfter;
    if k > 0 {
      PrefixSums(rules, tip, txs, tx, height, k - 1);
      PrefixCoins(tip, txs, tx, height, k - 1);
    }
  }

  function Append(rules: Rules, p: Progress, tx: Tx, height: int): Progress {
    Progress(p.txs + [tx], p.fees + [TxFee(p.view, tx)], p.sigOps + [TxSigOps(rules, p.view, tx)], AfterTx(p.view, tx, height),
             p.nBlockSize + tx.size, p.nBlockSigOps + TxSigOps(rules, p.view, tx), p.nFees + TxFee(p.view, tx))
  }

  lemma EntryStays(rules: Rules, tip: CoinMap, txs: seq<Tx>, tx: Tx, height: int, i: nat, fee: int, sigOps: int)
    requires i < |txs| && EntryOk(rules, tip, txs, height, i, fee, sigOps)
    ensures EntryOk(rules, tip, txs + [tx], height, i, fee, sigOps)
  {
    hide InputsOk, ScriptsOk, TxFee, TxSigOps, CoinsAfter;
    PrefixCoins(tip, txs, tx, height, i);
  }

  lemma EntryAppended(rules: Rules, tip: CoinMap, txs: seq<Tx>, tx: Tx, height: int)
    requires var view := CoinsAfter(tip, txs, height, |txs|);
             InputsOk(view, tx, height) && ScriptsOk(rules, view, tx, true)
    ensures var view := CoinsAfter(tip, txs, height, |txs|);
            && EntryOk(rules, tip, txs + [tx], height, |txs|, TxFee(view, tx), TxSigOps(rules, view, tx))
            && CoinsAfter(tip, txs + [tx], height, |txs| + 1) == AfterTx(view, tx, height)
            && SumSizes(txs + [tx], |txs| + 1) == SumSizes(txs, |txs|) + tx.size
            && SumSigOps(rules, tip, txs + [tx], height, |txs| + 1)
               == SumSigOps(rules, tip, txs, height, |txs|) + TxSigOps(rules, view, tx)
  {
    hide InputsOk, ScriptsOk, TxFee, TxSigOps, AfterTx;
    PrefixCoins(tip, txs, tx, height, |txs|);
    PrefixSums(rules, tip, txs, tx, height, |txs|);
  }

  lemma AppendAccounted(rules: Rules, tip: CoinMap, height: int, p: Progress, tx: Tx)
    requires Accounted(rules, tip, height, p) && InputsOk(p.view, tx, height) && ScriptsOk(rules, p.view, tx, true)
    ensures Accounted(rules, tip, height, Append(rules, p, tx, height))
  {
    hide InputsOk, ScriptsOk, TxFee, TxSigOps, AfterTx, EntryOk, CoinsAfter, SumSizes, SumSigOps;
    var q := Append(rules, p, tx, height);
    var n := |p.txs|;
    EntryAppended(rules, tip, p.txs, tx, height);
    assert q.fees[..n] == p.fees;
    forall i | 0 <= i <= n ensures EntryOk(rules, tip, q.txs, height, i, q.fees[i], q.sigOps[i]) {
      if i < n {
        EntryStays(rules, tip, p.txs, tx, height, i, p.fees[i], p.sigOps[i]);
      }
    }
  }

  /** The ids of the selected transactions are distinct and are the included ones; all come
      from the pool. */
  ghost predicate Selected(pool: seq<Tx>, isFinal: Tx -> bool, txs: seq<Tx>, taken: set<Hash>, included: set<Hash>) {
    && (forall i, j :: 0 <= i < j < |txs| ==> txs[i].txid != txs[j].txid)
    && (forall i :: 0 <= i < |txs| ==> Among(pool, |pool|, txs[i]) && Eligible(txs[i], isFinal))
    && (forall i :: 0 <= i < |txs| ==> txs[i].txid in included)
    && (forall h :: h in included ==> exists i :: 0 <= i < |txs| && txs[i].txid == h)
    && (forall h :: h in included ==> h in taken)
  }

  ghost predicate WithinLimits(p: Progress, nBlockMaxSize: nat) {
    && (p.txs == [] || p.nBlockSize < nBlockMaxSize) && p.nBlockSigOps < MAX_BLOCK_SIGOPS
  }

  // ---------- what is refused ----------

  /** The comparisons of the configuration and of floating-point numbers: sizes, and which
      transactions pay a low fee per kilobyte or have a low priority. */
  datatype Policy = Policy(maxSize: nat, minSize: nat, prioritySize: nat, lowFee: Tx -> bool, lowPriority: Tx -> bool)

  /** Why a transaction may not follow a selection with these coins, size and signature
      operations: a limit on either, a low fee past the minimum size once the heap is sorted by
      fee, or inputs or scripts that do not check. */
  predicate Refused(rules: Rules, height: int, view: CoinMap, size: nat, sigOps: nat, tx: Tx, policy: Policy, byFee: bool) {
    || size + tx.size >= policy.maxSize
    || sigOps + TxSigOps(rules, view, tx) >= MAX_BLOCK_SIGOPS
    || (byFee && policy.lowFee(tx) && size + tx.size >= policy.minSize)
    || !InputsOk(view, tx, height) || !ScriptsOk(rules, view, tx, true)
  }

  /** A transaction that makes the heap be sorted by fee. */
  predicate Switches(size: nat, tx: Tx, policy: Policy) {
    size + tx.size >= policy.prioritySize || policy.lowPriority(tx)
  }

  /** Tries one transaction: it is taken exactly if nothing speaks against it. */
  method Try(rules: Rules, height: int, p: Progress, tx: Tx, policy: Policy, byFee: bool)
    returns (ok: bool, q: Progress, fSortedByFee: bool)
    requires WithinLimits(p, policy.maxSize)
    ensures WithinLimits(q, policy.maxSize)
    ensures ok <==> !Refused(rules, height, p.view, p.nBlockSize, p.nBlockSigOps, tx, policy, byFee)
    ensures q == if ok then Append(rules, p, tx, height) else p
    ensures byFee ==> fSortedByFee
    ensures fSortedByFee && !byFee ==> Switches(p.nBlockSize, tx, policy)
    ensures ok ==> (fSortedByFee <==> byFee || Switches(p.nBlockSize, tx, policy))
  {
    hide ScriptsOk, TxFee, P2SHSigOps, AfterTx, HaveInputs, Matured, InputValue, ValueIn, SumOut, MinFee;
    q, fSortedByFee := p, byFee;
    if p.nBlockSize + tx.size >= policy.maxSize {
      return false, q, fSortedByFee;
    }
    if p.nBlockSigOps + tx.sigOps >= MAX_BLOCK_SIGOPS {
      return false, q, fSortedByFee;
    }
    if fSortedByFee && policy.lowFee(tx) && p.nBlockSize + tx.size >= policy.minSize {
      return false, q, fSortedByFee;
    }
    if !fSortedByFee && (p.nBlockSize + tx.size >= policy.prioritySize || policy.lowPriority(tx)) {
      fSortedByFee := true;
    }
    if !HaveInputs(p.view, tx.vin) {
      return false, q, fSortedByFee;
    }
    var nTxSigOps := TxSigOps(rules, p.view, tx);
    if p.nBlockSigOps + nTxSigOps >= MAX_BLOCK_SIGOPS {
      return false, q, fSortedByFee;
    }
    if !InputsOk(p.view, tx, height) || !ScriptsOk(rules, p.view, tx, true) {
      return false, q, fSortedByFee;
    }
    return true, Append(rules, p, tx, height), fSortedByFee;
  }

  /** By the time the first k transactions are selected, the heap may be sorted by fee: there is
      no room for priority, or an eligible transaction made it so on top of some of them. */
  ghost predicate ByFee(pool: seq<Tx>, isFinal: Tx -> bool, txs: seq<Tx>, k: nat, policy: Policy)
    requires k <= |txs|
  {
    policy.prioritySize == 0 ||
    exists n, j :: 0 <= n < |pool| && 0 <= j <= k && Eligible(pool[n], isFinal) && SwitchesAt(txs, j, pool[n], policy)
  }

  ghost predicate SwitchesAt(txs: seq<Tx>, j: nat, tx: Tx, policy: Policy)
    requires j <= |txs|
  {
    Switches(BLOCK_OVERHEAD + SumSizes(txs, j), tx, policy)
  }

  /** The transaction may not follow the first k selected ones. */
  ghost predicate RefusedAfter(rules: Rules, tip: CoinMap, pool: seq<Tx>, isFinal: Tx -> bool, height: int, txs: seq<Tx>, k: nat,
                               tx: Tx, policy: Policy)
    requires k <= |txs|
  {
    Refused(rules, height, CoinsAfter(tip, txs, height, k), BLOCK_OVERHEAD + SumSizes(txs, k),
            SIGOPS_OVERHEAD + SumSigOps(rules, tip, txs, height, k), tx, policy, ByFee(pool, isFinal, txs, k, policy))
  }

  /** It was refused at some point of the selection. */
  ghost predicate TurnedDown(rules: Rules, tip: CoinMap, pool: seq<Tx>, isFinal: Tx -> bool, height: int, txs: seq<Tx>, tx: Tx, policy: Policy) {
    exists k :: 0 <= k <= |txs| && RefusedAfter(rules, tip, pool, isFinal, height, txs, k, tx, policy)
  }

  lemma SwitchStays(txs: seq<Tx>, more: Tx, j: nat, tx: Tx, policy: Policy)
    requires j <= |txs| && SwitchesAt(txs, j, tx, policy)
    ensures SwitchesAt(txs + [more], j, tx, policy)
  {
    hide Switches;
    PrefixSizes(txs, more, j);
  }

  lemma {:induction false} PrefixSizes(txs: seq<Tx>, tx: Tx, k: nat)
    requires k <= |txs|
    ensures SumSizes(txs + [tx], k) == SumSizes(txs, k)
  {
    if k > 0 {
      PrefixSizes(txs, tx, k - 1);
    }
  }

  lemma ByFeeStays(pool: seq<Tx>, isFinal: Tx -> bool, txs: seq<Tx>, more: Tx, k: nat, policy: Policy)
    requires k <= |txs| && ByFee(pool, isFinal, txs, k, policy)
    ensures ByFee(pool, isFinal, txs + [more], k, policy) && ByFee(pool, isFinal, txs + [more], k + 1, policy)
  {
    hide SwitchesAt;
    if policy.prioritySize != 0 {
      var n, j :| 0 <= n < |pool| && 0 <= j <= k && Eligible(pool[n], isFinal) && SwitchesAt(txs, j, pool[n], policy);
      SwitchStays(txs, more, j, pool[n], policy);
    }
  }

  lemma TurnedDownStays(rules: Rules, tip: CoinMap, pool: seq<Tx>, isFinal: Tx -> bool, height: int, txs: seq<Tx>, more: Tx, tx: Tx, policy: Policy)
    requires TurnedDown(rules, tip, pool, isFinal, height, txs, tx, policy)
    ensures TurnedDown(rules, tip, pool, isFinal, height, txs + [more], tx, policy)
  {
    hide InputsOk, ScriptsOk, TxSigOps, ByFee, SumSizes, SumSigOps, CoinsAfter;
    var k :| 0 <= k <= |txs| && RefusedAfter(rules, tip, pool, isFinal, height, txs, k, tx, policy);
    PrefixCoins(tip, txs, more, height, k);
    PrefixSums(rules, tip, txs, more, height, k);
    if ByFee(pool, isFinal, txs, k, policy) {
      ByFeeStays(pool, isFinal, txs, more, k, policy);
    }
    assert RefusedAfter(rules, tip, pool, isFinal, height, txs + [more], k, tx, policy);
  }

  lemma SelectedMore(pool: seq<Tx>, isFinal: Tx -> bool, txs: seq<Tx>, tx: Tx, taken: set<Hash>, included: set<Hash>)
    requires Selected(pool, isFinal, txs, taken, included)
    requires Among(pool, |pool|, tx) && Eligible(tx, isFinal) && tx.txid !in taken
    ensures Selected(pool, isFinal, txs + [tx], taken + {tx.txid}, included + {tx.txid})
    ensures Selected(pool, isFinal, txs, taken + {tx.txid}, included)
  {
    hide Among;
    var more := txs + [tx];
    forall h | h in included + {tx.txid} ensures exists i :: 0 <= i < |more| && more[i].txid == h {
      if h in included {
        var i :| 0 <= i < |txs| && txs[i].txid == h;
        assert more[i].txid == h;
      } else {
        assert more[|txs|].txid == h;
      }
    }
  }

  /** Every transaction taken off the heap is in the block or was refused on the way. */
  ghost predicate Judged(rules: Rules, tip: CoinMap, pool: seq<Tx>, isFinal: Tx -> bool, height: int, txs: seq<Tx>, taken: set<Hash>,
                         included: set<Hash>, policy: Policy)
  {
    forall n :: 0 <= n < |pool| && pool[n].txid in taken && pool[n].txid !in included ==>
      TurnedDown(rules, tip, pool, isFinal, height, txs, pool[n], policy)
  }

  lemma JudgedTaken(rules: Rules, tip: CoinMap, pool: seq<Tx>, isFinal: Tx -> bool, height: int, txs: seq<Tx>, tx: Tx, taken: set<Hash>,
                    included: set<Hash>, policy: Policy)
    requires Judged(rules, tip, pool, isFinal, height, txs, taken, included, policy)
    ensures Judged(rules, tip, pool, isFinal, height, txs + [tx], taken + {tx.txid}, included + {tx.txid}, policy)
  {
    hide TurnedDown;
    forall n | 0 <= n < |pool| && pool[n].txid in taken + {tx.txid} && pool[n].txid !in included + {tx.txid}
      ensures TurnedDown(rules, tip, pool, isFinal, height, txs + [tx], pool[n], policy)
    {
      TurnedDownStays(rules, tip, pool, isFinal, height, txs, tx, pool[n], policy);
    }
  }

  lemma JudgedRefused(rules: Rules, tip: CoinMap, pool: seq<Tx>, isFinal: Tx -> bool, height: int, p: Progress, tx: Tx, taken: set<Hash>,
                      included: set<Hash>, policy: Policy, byFee: bool)
    requires PoolOk(pool) && Among(pool, |pool|, tx) && Accounted(rules, tip, height, p)
    requires Judged(rules, tip, pool, isFinal, height, p.txs, taken, included, policy)
    requires Refused(rules, height, p.view, p.nBlockSize, p.nBlockSigOps, tx, policy, byFee)
    requires byFee ==> ByFee(pool, isFinal, p.txs, |p.txs|, policy)
    ensures Judged(rules, tip, pool, isFinal, height, p.txs, taken + {tx.txid}, included, policy)
  {
    hide InputsOk, ScriptsOk, TxSigOps, ByFee, SumSizes, SumSigOps, CoinsAfter, EntryOk, TransactionOk, Sum;
    assert RefusedAfter(rules, tip, pool, isFinal, height, p.txs, |p.txs|, tx, policy);
    assert TurnedDown(rules, tip, pool, isFinal, height, p.txs, tx, policy);
    hide TurnedDown, RefusedAfter;
  }

  lemma SortedNow(rules: Rules, tip: CoinMap, pool: seq<Tx>, isFinal: Tx -> bool, height: int, p: Progress, tx: Tx, policy: Policy)
    requires Among(pool, |pool|, tx) && Eligible(tx, isFinal) && Accounted(rules, tip, height, p) && Switches(p.nBlockSize, tx, policy)
    ensures ByFee(pool, isFinal, p.txs, |p.txs|, policy)
  {
    hide EntryOk, CoinsAfter, SumSizes, SumSigOps, Sum, Switches;
    var n :| 0 <= n < |pool| && pool[n] == tx;
    assert SwitchesAt(p.txs, |p.txs|, pool[n], policy);
  }

  /** Takes transactions off the heap until it is empty. */
  method Select(rules: Rules, tip: CoinMap, pool: seq<Tx>, isFinal: Tx -> bool, height: int, start: Work, policy: Policy)
    returns (p: Progress, ghost w: Work, ghost taken: set<Hash>, ghost included: set<Hash>)
    requires PoolOk(pool) && WorkOk(tip, pool, |pool|, isFinal, start, {}, {})
    ensures Accounted(rules, tip, height, p) && WithinLimits(p, policy.maxSize)
    ensures Selected(pool, isFinal, p.txs, taken, included)
    ensures Judged(rules, tip, pool, isFinal, height, p.txs, taken, included, policy)
    ensures WorkOk(tip, pool, |pool|, isFinal, w, taken, included) && w.heap == []
  {
    hide WorkOk, Accounted, Selected, AfterTx, InputsOk, ScriptsOk, TxFee, TxSigOps, PoolOk, Judged, Refused, ByFee, Among, Eligible, Switches;
    var work, byFee := start, policy.prioritySize <= 0;
    p, taken, included := START.(view := tip), {}, {};
    NothingSelected(rules, tip, pool, isFinal, height, p, policy);
    while |work.heap| > 0
      invariant WorkOk(tip, pool, |pool|, isFinal, work, taken, included)
      invariant Accounted(rules, tip, height, p) && WithinLimits(p, policy.maxSize)
      invariant Selected(pool, isFinal, p.txs, taken, included)
      invariant Judged(rules, tip, pool, isFinal, height, p.txs, taken, included, policy)
      invariant byFee ==> ByFee(pool, isFinal, p.txs, |p.txs|, policy)
      decreases |work.heap| + Waiting(work.orphans)
    {
      var i :| 0 <= i < |work.heap|;
      var tx := work.heap[i];
      Popped(tip, pool, isFinal, work, i, taken, included);
      SelectedMore(pool, isFinal, p.txs, tx, taken, included);
      work := work.(heap := RemoveAt(work.heap, i));
      ghost var was, wasByFee := p, byFee;
      var ok;
      ok, p, byFee := Try(rules, height, p, tx, policy, byFee);
      if byFee && !wasByFee {
        SortedNow(rules, tip, pool, isFinal, height, was, tx, policy);
      }
      if ok {
        PassedChecks(rules, height, was, tx, policy, wasByFee);
        AppendAccounted(rules, tip, height, was, tx);
        JudgedTaken(rules, tip, pool, isFinal, height, was.txs, tx, taken, included, policy);
        if byFee {
          ByFeeStays(pool, isFinal, was.txs, tx, |was.txs|, policy);
        }
        taken := taken + {tx.txid};
        work := Release(tip, pool, isFinal, work, tx.txid, taken, included);
        included := included + {tx.txid};
      } else {
        JudgedRefused(rules, tip, pool, isFinal, height, was, tx, taken, included, policy, wasByFee);
        taken := taken + {tx.txid};
      }
    }
    w := work;
  }

  lemma PassedChecks(rules: Rules, height: int, p: Progress, tx: Tx, policy: Policy, byFee: bool)
    requires !Refused(rules, height, p.view, p.nBlockSize, p.nBlockSigOps, tx, policy, byFee)
    ensures InputsOk(p.view, tx, height) && ScriptsOk(rules, p.view, tx, true)
  {
    hide InputsOk, ScriptsOk, TxSigOps;
  }

  lemma NothingSelected(rules: Rules, tip: CoinMap, pool: seq<Tx>, isFinal: Tx -> bool, height: int, p: Progress, policy: Policy)
    requires p == START.(view := tip)
    ensures Accounted(rules, tip, height, p) && Selected(pool, isFinal, p.txs, {}, {})
    ensures Judged(rules, tip, pool, isFinal, height, p.txs, {}, {}, policy)
    ensures policy.prioritySize == 0 ==> ByFee(pool, isFinal, p.txs, 0, policy)
  {
  }
}
