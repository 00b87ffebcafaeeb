/** The consistency of the address manager's tables, and what each elementary change to them
    keeps. (src/addrman.h; the conditions are those of Check_ in src/addrman.cpp, together
    with the bucket sizes and the place of every tried entry) */
module AddrTables {
  import opened Basics

  const TRIED_BUCKET_COUNT := 64
  const TRIED_BUCKET_SIZE := 64
  const NEW_BUCKET_COUNT := 256
  const NEW_BUCKET_SIZE := 64
  const NEW_BUCKETS_PER_ADDRESS := 4
  const TRIED_ENTRIES_INSPECT_ON_EVICT := 4

  type NetAddr = nat

  datatype Service = Service(ip: NetAddr, port: nat)

  datatype AddrInfo = AddrInfo(
    service: Service, services: set<nat>, nTime: int, source: NetAddr,
    nLastSuccess: int, nLastTry: int, nAttempts: int,
    nRefCount: int, fInTried: bool, nRandomPos: int)

  type InfoMap = map<int, AddrInfo>

  /** The hash functions keyed with nKey that pick buckets. */
  datatype Key = Key(triedHash: Service -> nat, newHash: (NetAddr, NetAddr) -> nat) {
    function TriedBucket(info: AddrInfo): (b: nat)
      ensures b < TRIED_BUCKET_COUNT
    {
      triedHash(info.service) % TRIED_BUCKET_COUNT
    }

    function NewBucket(info: AddrInfo, source: NetAddr): (b: nat)
      ensures b < NEW_BUCKET_COUNT
    {
      newHash(info.service.ip, source) % NEW_BUCKET_COUNT
    }
  }

  // ---------- the invariant, table by table ----------

  /** mapAddr inverts mapInfo; vRandom and nRandomPos are inverse. */
  ghost predicate Indexed(info: InfoMap, byAddr: map<NetAddr, int>, random: seq<int>, nIdCount: int) {
    && (forall i :: i in info ==> 0 <= i < nIdCount)
    && (forall i :: i in info ==> info[i].service.ip in byAddr && byAddr[info[i].service.ip] == i)
    && (forall a :: a in byAddr ==> byAddr[a] in info && info[byAddr[a]].service.ip == a)
    && (forall i :: i in info ==> 0 <= info[i].nRandomPos < |random| && random[info[i].nRandomPos] == i)
    && (forall j :: 0 <= j < |random| ==> random[j] in info && info[random[j]].nRandomPos == j)
  }

  /** Each tried entry is once in its own bucket, and in no other. */
  ghost predicate TriedOk(key: Key, info: InfoMap, tried: seq<seq<int>>) {
    && |tried| == TRIED_BUCKET_COUNT
    && (forall b :: 0 <= b < |tried| ==> |tried[b]| <= TRIED_BUCKET_SIZE && Distinct(tried[b]))
    && (forall b, i :: 0 <= b < |tried| && i in tried[b] ==> i in info && info[i].fInTried && key.TriedBucket(info[i]) == b)
    && (forall i :: i in info && info[i].fInTried ==> i in tried[key.TriedBucket(info[i])])
  }

  /** The new buckets an entry is in. */
  ghost function Homes(vNew: seq<set<int>>, i: int): set<int> {
    set b | 0 <= b < |vNew| && i in vNew[b]
  }

  ghost predicate NewOk(info: InfoMap, vNew: seq<set<int>>) {
    && |vNew| == NEW_BUCKET_COUNT
    && (forall b :: 0 <= b < |vNew| ==> |vNew[b]| <= NEW_BUCKET_SIZE)
    && (forall b, i :: 0 <= b < |vNew| && i in vNew[b] ==> i in info && !info[i].fInTried)
  }

  /** nRefCount is the number of new buckets an entry is in; for the entry bonus it is one
      more, as while that entry is about to be inserted into another bucket. */
  ghost predicate RefsOk(info: InfoMap, vNew: seq<set<int>>, bonus: int) {
    forall i :: i in info ==> info[i].nRefCount == |Homes(vNew, i)| + (if i == bonus then 1 else 0)
  }

  ghost predicate RangeOk(info: InfoMap) {
    forall i :: i in info ==> EntryRangeOk(info[i])
  }

  ghost function TriedIds(info: InfoMap): set<int> {
    set i | i in info && info[i].fInTried
  }

  ghost function NewIds(info: InfoMap): set<int> {
    set i | i in info && !info[i].fInTried
  }

  ghost predicate CountsOk(info: InfoMap, random: seq<int>, nTried: int, nNew: int) {
    nTried == |TriedIds(info)| && nNew == |NewIds(info)| && |random| == nTried + nNew
  }

  const NOBODY := -1

  // ---------- buckets ----------

  lemma HomesUpdate(vNew: seq<set<int>>, b: int, s: set<int>, i: int)
    requires 0 <= b < |vNew|
    ensures Homes(vNew[b := s], i) == if i in s then Homes(vNew, i) + {b} else Homes(vNew, i) - {b}
  {
  }

  /** Taking an entry out of a bucket lowers the number of its homes by one. */
  lemma HomesRemove(vNew: seq<set<int>>, b: int, v: int, i: int)
    requires 0 <= b < |vNew| && v in vNew[b]
    ensures |Homes(vNew[b := vNew[b] - {v}], i)| == |Homes(vNew, i)| - (if i == v then 1 else 0)
  {
    HomesUpdate(vNew, b, vNew[b] - {v}, i);
    if i != v {
      assert Homes(vNew[b := vNew[b] - {v}], i) == Homes(vNew, i);
    } else {
      assert b in Homes(vNew, i);
    }
  }

  lemma HomesInsert(vNew: seq<set<int>>, b: int, v: int, i: int)
    requires 0 <= b < |vNew| && v !in vNew[b]
    ensures |Homes(vNew[b := vNew[b] + {v}], i)| == |Homes(vNew, i)| + (if i == v then 1 else 0)
  {
    HomesUpdate(vNew, b, vNew[b] + {v}, i);
    if i != v {
      assert Homes(vNew[b := vNew[b] + {v}], i) == Homes(vNew, i);
    } else {
      assert b !in Homes(vNew, i);
    }
  }

  lemma NoHomes(vNew: seq<set<int>>, i: int)
    ensures |Homes(vNew, i)| == 0 <==> forall b :: 0 <= b < |vNew| ==> i !in vNew[b]
  {
    if |Homes(vNew, i)| == 0 {
      forall b | 0 <= b < |vNew| ensures i !in vNew[b] {
        assert b !in Homes(vNew, i);
      }
    } else {
      var b :| b in Homes(vNew, i);
    }
  }

  // ---------- changes that leave ids, addresses and positions alone ----------

  /** Entries keep their ids, addresses, flags, positions and reference counts. */
  ghost predicate SameShape(a: InfoMap, b: InfoMap) {
    (forall i :: i in a ==> i in b) && (forall i :: i in b ==> i in a) && forall i :: i in a ==>
      && a[i].service == b[i].service && a[i].fInTried == b[i].fInTried
      && a[i].nRefCount == b[i].nRefCount && a[i].nRandomPos == b[i].nRandomPos
  }

  lemma SameIds(a: InfoMap, b: InfoMap)
    requires (forall i :: i in a ==> i in b) && (forall i :: i in b ==> i in a)
    requires forall i :: i in a ==> a[i].fInTried == b[i].fInTried
    ensures TriedIds(a) == TriedIds(b) && NewIds(a) == NewIds(b)
  {
    forall i ensures i in TriedIds(a) <==> i in TriedIds(b) {
    }
    forall i ensures i in NewIds(a) <==> i in NewIds(b) {
    }
  }

  ghost predicate SameIndex(a: InfoMap, b: InfoMap) {
    (forall i :: i in a ==> i in b) && (forall i :: i in b ==> i in a) && forall i :: i in a ==>
      a[i].service == b[i].service && a[i].nRandomPos == b[i].nRandomPos
  }

  lemma ShapeKeepsIndex(a: InfoMap, b: InfoMap, byAddr: map<NetAddr, int>, random: seq<int>, ids: int)
    requires SameIndex(a, b) && Indexed(a, byAddr, random, ids)
    ensures Indexed(b, byAddr, random, ids)
  {
    forall i | i in b
      ensures 0 <= i < ids && b[i].service.ip in byAddr && byAddr[b[i].service.ip] == i
      ensures 0 <= b[i].nRandomPos < |random| && random[b[i].nRandomPos] == i
    {
      assert i in a;
    }
    forall x | x in byAddr ensures byAddr[x] in b && b[byAddr[x]].service.ip == x {
      var i := byAddr[x];
      assert i in a && i in b;
    }
    forall j | 0 <= j < |random| ensures random[j] in b && b[random[j]].nRandomPos == j {
      var i := random[j];
      assert i in a && i in b;
    }
  }

  lemma ShapeKeeps(key: Key, a: InfoMap, b: InfoMap, byAddr: map<NetAddr, int>, random: seq<int>, ids: int,
                   tried: seq<seq<int>>, vNew: seq<set<int>>, nTried: int, nNew: int)
    requires SameShape(a, b)
    requires Indexed(a, byAddr, random, ids) && TriedOk(key, a, tried) && NewOk(a, vNew) && RefsOk(a, vNew, NOBODY)
    requires RangeOk(a) && CountsOk(a, random, nTried, nNew)
    ensures Indexed(b, byAddr, random, ids) && TriedOk(key, b, tried) && NewOk(b, vNew) && RefsOk(b, vNew, NOBODY)
    ensures RangeOk(b) && CountsOk(b, random, nTried, nNew)
  {
    hide Distinct, Homes, TriedIds, NewIds, Indexed;
    SameIds(a, b);
    ShapeKeepsIndex(a, b, byAddr, random, ids);
  }

  // ---------- creating an entry ----------

  lemma CreateKeepsIndex(info: InfoMap, byAddr: map<NetAddr, int>, random: seq<int>, ids: int, e: AddrInfo)
    requires Indexed(info, byAddr, random, ids) && e.service.ip !in byAddr && e.nRandomPos == |random| && ids >= 0
    ensures Indexed(info[ids := e], byAddr[e.service.ip := ids], random + [ids], ids + 1)
  {
  }

  lemma CreateKeepsTried(key: Key, info: InfoMap, tried: seq<seq<int>>, ids: int, e: AddrInfo)
    requires ids !in info && !e.fInTried && TriedOk(key, info, tried)
    ensures TriedOk(key, info[ids := e], tried)
    ensures TriedIds(info[ids := e]) == TriedIds(info)
    ensures NewIds(info[ids := e]) == NewIds(info) + {ids} && |NewIds(info[ids := e])| == |NewIds(info)| + 1
  {
    hide Distinct, TriedIds, NewIds;
    CreateCounts(info, ids, e);
  }

  lemma CreateCounts(info: InfoMap, ids: int, e: AddrInfo)
    requires ids !in info && !e.fInTried
    ensures TriedIds(info[ids := e]) == TriedIds(info)
    ensures NewIds(info[ids := e]) == NewIds(info) + {ids} && |NewIds(info[ids := e])| == |NewIds(info)| + 1
  {
    forall i ensures i in TriedIds(info[ids := e]) <==> i in TriedIds(info) {
    }
    forall i ensures i in NewIds(info[ids := e]) <==> i in NewIds(info) + {ids} {
    }
  }

  lemma CreateKeepsNew(info: InfoMap, vNew: seq<set<int>>, ids: int, e: AddrInfo)
    requires ids !in info && !e.fInTried && e.nRefCount == 1
    requires NewOk(info, vNew) && RefsOk(info, vNew, NOBODY) && RangeOk(info) && NOBODY !in info
    ensures var info1 := info[ids := e];
            NewOk(info1, vNew) && RefsOk(info1, vNew, ids) && RangeOk(info1)
  {
    hide Homes;
    assert forall b :: 0 <= b < |vNew| ==> ids !in vNew[b];
    NoHomes(vNew, ids);
  }

  // ---------- dropping an entry from a new bucket ----------

  /** One reference fewer. */
  function Unref(e: AddrInfo): AddrInfo { e.(nRefCount := e.nRefCount - 1) }

  lemma DropKeepsRefs(info: InfoMap, vNew: seq<set<int>>, b: int, v: int, bonus: int)
    requires 0 <= b < |vNew| && v in vNew[b] && v in info && v != bonus
    requires NewOk(info, vNew) && RefsOk(info, vNew, bonus)
    ensures var vNew1 := vNew[b := vNew[b] - {v}];
            var info1 := info[v := Unref(info[v])];
            && NewOk(info1, vNew1) && RefsOk(info1, vNew1, bonus) && RefsOk(info1 - {v}, vNew1, bonus)
            && (info1[v].nRefCount == 0 ==> NewOk(info1 - {v}, vNew1))
  {
    var vNew1 := vNew[b := vNew[b] - {v}];
    var info1 := info[v := Unref(info[v])];
    forall i | i in info1 ensures info1[i].nRefCount == |Homes(vNew1, i)| + (if i == bonus then 1 else 0) {
      HomesRemove(vNew, b, v, i);
    }
    NoHomes(vNew1, v);
    hide Homes;
  }

  lemma DropKeepsTried(key: Key, info: InfoMap, tried: seq<seq<int>>, v: int)
    requires v in info && !info[v].fInTried && TriedOk(key, info, tried)
    ensures TriedOk(key, info[v := Unref(info[v])], tried) && TriedOk(key, info - {v}, tried)
    ensures TriedIds(info[v := Unref(info[v])]) == TriedIds(info) == TriedIds(info - {v})
    ensures NewIds(info[v := Unref(info[v])]) == NewIds(info)
    ensures NewIds(info - {v}) == NewIds(info) - {v} && |NewIds(info - {v})| == |NewIds(info)| - 1
  {
    hide Distinct;
    assert v in NewIds(info);
    assert NewIds(info - {v}) == NewIds(info) - {v};
  }

  /** Deleting the entry at the end of vRandom. */
  lemma DeleteKeepsIndex(info: InfoMap, byAddr: map<NetAddr, int>, random: seq<int>, ids: int, v: int)
    requires Indexed(info, byAddr, random, ids) && v in info && info[v].nRandomPos == |random| - 1
    ensures Indexed(info - {v}, byAddr - {info[v].service.ip}, random[..|random| - 1], ids)
  {
  }

  // ---------- swapping two positions of vRandom ----------

  function SwapInfo(info: InfoMap, random: seq<int>, p: int, q: int): InfoMap
    requires 0 <= p < |random| && 0 <= q < |random| && random[p] in info && random[q] in info
  {
    var one := info[random[p] := info[random[p]].(nRandomPos := q)];
    one[random[q] := one[random[q]].(nRandomPos := p)]
  }

  lemma SwapKeepsIndex(info: InfoMap, byAddr: map<NetAddr, int>, random: seq<int>, ids: int, p: int, q: int)
    requires Indexed(info, byAddr, random, ids) && 0 <= p < |random| && 0 <= q < |random| && p != q
    ensures Indexed(SwapInfo(info, random, p, q), byAddr, random[p := random[q]][q := random[p]], ids)
  {
  }

  /** Nothing but positions differs. */
  ghost predicate SameButPosition(a: InfoMap, b: InfoMap) {
    (forall i :: i in a ==> i in b) && (forall i :: i in b ==> i in a) && forall i :: i in a ==> b[i] == a[i].(nRandomPos := b[i].nRandomPos)
  }

  lemma PositionKeepsTables(key: Key, a: InfoMap, b: InfoMap, tried: seq<seq<int>>, vNew: seq<set<int>>, bonus: int)
    requires SameButPosition(a, b)
    ensures TriedOk(key, a, tried) ==> TriedOk(key, b, tried)
    ensures NewOk(a, vNew) ==> NewOk(b, vNew)
    ensures RefsOk(a, vNew, bonus) ==> RefsOk(b, vNew, bonus)
    ensures RangeOk(a) ==> RangeOk(b)
    ensures TriedIds(a) == TriedIds(b) && NewIds(a) == NewIds(b)
  {
    hide Distinct, Homes, TriedIds, NewIds;
    SameIds(a, b);
  }

  // ---------- moving entries between new and tried ----------

  lemma PushKeepsTried(key: Key, info: InfoMap, tried: seq<seq<int>>, v: int)
    requires TriedOk(key, info, tried) && v in info && !info[v].fInTried
    requires |tried[key.TriedBucket(info[v])]| < TRIED_BUCKET_SIZE
    ensures var b := key.TriedBucket(info[v]);
            TriedOk(key, info[v := info[v].(fInTried := true)], tried[b := tried[b] + [v]])
  {
    var b := key.TriedBucket(info[v]);
    assert forall i :: i in tried[b] + [v] <==> i in tried[b] || i == v;
    assert forall i :: i in tried[b] ==> i != v;
  }

  /** Replacing entry at position p of a bucket by v. */
  lemma ReplaceKeepsTried(key: Key, info: InfoMap, tried: seq<seq<int>>, v: int, p: int)
    requires TriedOk(key, info, tried) && v in info && !info[v].fInTried
    requires 0 <= p < |tried[key.TriedBucket(info[v])]|
    ensures var b := key.TriedBucket(info[v]);
            var e := tried[b][p];
            && e != v && e in info
            && TriedOk(key, info[e := info[e].(fInTried := false, nRefCount := 1)][v := info[v].(fInTried := true)],
                       tried[b := tried[b][p := v]])
  {
    var b := key.TriedBucket(info[v]);
    var e := tried[b][p];
    var bucket := tried[b][p := v];
    assert e in tried[b];
    forall i ensures i in bucket <==> i == v || (i in tried[b] && i != e) {
      if i in tried[b] && i != e {
        var q :| 0 <= q < |tried[b]| && tried[b][q] == i;
        assert bucket[q] == i;
      }
      if i in bucket && i != v {
        var q :| 0 <= q < |bucket| && bucket[q] == i;
        assert q != p && tried[b][q] == i;
      }
      assert bucket[p] == v;
    }
  }

  /** An entry in no new bucket becomes tried. */
  lemma PromoteKeepsNew(info: InfoMap, vNew: seq<set<int>>, v: int)
    requires v in info && info[v].nRefCount == 0 && !info[v].fInTried
    requires NewOk(info, vNew) && RefsOk(info, vNew, NOBODY) && v != NOBODY
    requires forall i :: i in info && i != v ==> EntryRangeOk(info[i])
    ensures var info1 := info[v := info[v].(fInTried := true)];
            && NewOk(info1, vNew) && RefsOk(info1, vNew, NOBODY) && RangeOk(info1)
            && TriedIds(info1) == TriedIds(info) + {v} && NewIds(info1) == NewIds(info) - {v}
            && |TriedIds(info1)| == |TriedIds(info)| + 1 && |NewIds(info1)| == |NewIds(info)| - 1
  {
    NoHomes(vNew, v);
    var info1 := info[v := info[v].(fInTried := true)];
    assert TriedIds(info1) == TriedIds(info) + {v};
    assert NewIds(info1) == NewIds(info) - {v};
    assert v in NewIds(info) && v !in TriedIds(info);
    hide Homes;
  }

  ghost predicate EntryRangeOk(e: AddrInfo) {
    if e.fInTried then e.nRefCount == 0 else 1 <= e.nRefCount <= NEW_BUCKETS_PER_ADDRESS
  }

  function Evicted(e: AddrInfo): AddrInfo { e.(fInTried := false, nRefCount := 1) }

  /** A tried entry goes back to a new bucket with room. */
  lemma EvictKeepsNew(info: InfoMap, vNew: seq<set<int>>, e: int, b: int)
    requires e in info && info[e].fInTried && info[e].nRefCount == 0 && e != NOBODY
    requires NewOk(info, vNew) && RefsOk(info, vNew, NOBODY) && 0 <= b < |vNew| && |vNew[b]| < NEW_BUCKET_SIZE
    ensures var info1 := info[e := Evicted(info[e])];
            var vNew1 := vNew[b := vNew[b] + {e}];
            && NewOk(info1, vNew1) && RefsOk(info1, vNew1, NOBODY)
            && TriedIds(info1) == TriedIds(info) - {e} && NewIds(info1) == NewIds(info) + {e}
            && |TriedIds(info1)| == |TriedIds(info)| - 1 && |NewIds(info1)| == |NewIds(info)| + 1
  {
    var info1 := info[e := Evicted(info[e])];
    var vNew1 := vNew[b := vNew[b] + {e}];
    NoHomes(vNew, e);
    forall i | i in info1 ensures info1[i].nRefCount == |Homes(vNew1, i)| + (if i == NOBODY then 1 else 0) {
      HomesInsert(vNew, b, e, i);
    }
    assert TriedIds(info1) == TriedIds(info) - {e};
    assert NewIds(info1) == NewIds(info) + {e};
    assert e in TriedIds(info) && e !in NewIds(info);
    hide Homes;
  }

  /** Inserting the entry that already counts the reference. */
  lemma InsertKeepsNew(info: InfoMap, vNew: seq<set<int>>, v: int, b: int)
    requires v in info && !info[v].fInTried && v != NOBODY && NOBODY !in info
    requires NewOk(info, vNew) && RefsOk(info, vNew, v) && 0 <= b < |vNew| && |vNew[b]| < NEW_BUCKET_SIZE && v !in vNew[b]
    ensures var vNew1 := vNew[b := vNew[b] + {v}];
            NewOk(info, vNew1) && RefsOk(info, vNew1, NOBODY)
  {
    var vNew1 := vNew[b := vNew[b] + {v}];
    forall i | i in info ensures info[i].nRefCount == |Homes(vNew1, i)| + (if i == NOBODY then 1 else 0) {
      HomesInsert(vNew, b, v, i);
    }
    hide Homes;
  }

  /** Taking an entry out of all its buckets. */
  lemma ClearKeepsNew(info: InfoMap, vNew: seq<set<int>>, vNew1: seq<set<int>>, v: int)
    requires v in info && NewOk(info, vNew) && RefsOk(info, vNew, NOBODY) && |vNew1| == |vNew| && v != NOBODY
    requires forall b :: 0 <= b < |vNew| ==> vNew1[b] == vNew[b] - {v}
    ensures var info1 := info[v := info[v].(nRefCount := 0)];
            && NewOk(info1, vNew1) && RefsOk(info1, vNew1, NOBODY)
            && TriedIds(info1) == TriedIds(info) && NewIds(info1) == NewIds(info)
  {
    var info1 := info[v := info[v].(nRefCount := 0)];
    forall b | 0 <= b < |vNew1| ensures |vNew1[b]| <= NEW_BUCKET_SIZE {
      if v in vNew[b] {
        assert |vNew1[b]| == |vNew[b]| - 1;
      } else {
        assert vNew1[b] == vNew[b];
      }
    }
    NoHomes(vNew1, v);
    forall i | i in info1 ensures info1[i].nRefCount == |Homes(vNew1, i)| + (if i == NOBODY then 1 else 0) {
      if i != v {
        assert Homes(vNew1, i) == Homes(vNew, i);
      }
    }
    forall i ensures i in TriedIds(info1) <==> i in TriedIds(info) {
    }
    forall i ensures i in NewIds(info1) <==> i in NewIds(info) {
    }
    hide Homes;
  }
}
