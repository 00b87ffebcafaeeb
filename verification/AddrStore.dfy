/** Saving and reloading the address manager. Ids, positions, bucket order and the time of the
    last attempt are not kept; everything else is. (src/addrman.h, CAddrMan serialization) */
module AddrStore {
  import opened Basics
  import opened AddrTables
  import A = AddrMan
  import C = AddrCheck

  /** What is written of an entry. */
  datatype DiskInfo = DiskInfo(
    service: Service, services: set<nat>, nTime: int, source: NetAddr, nLastSuccess: int, nAttempts: int)

  function ToDisk(e: AddrInfo): DiskInfo {
    DiskInfo(e.service, e.services, e.nTime, e.source, e.nLastSuccess, e.nAttempts)
  }

  function FromDisk(d: DiskInfo): AddrInfo {
    AddrInfo(d.service, d.services, d.nTime, d.source, d.nLastSuccess, 0, d.nAttempts, 0, false, -1)
  }

  /** The file; the number of new buckets written is the length of buckets. */
  datatype AddrFile = AddrFile(
    key: Key, nNew: int, nTried: int, newInfos: seq<DiskInfo>, triedInfos: seq<DiskInfo>, buckets: seq<seq<int>>)

  ghost predicate Sorted(s: seq<int>) {
    forall p, q :: 0 <= p < q < |s| ==> s[p] < s[q]
  }

  /** order lists exactly the entries, the new ones first. */
  ghost predicate Lists(info: InfoMap, order: seq<int>, nNew: int) {
    && 0 <= nNew <= |order| && Distinct(order)
    && (forall n :: 0 <= n < |order| ==> order[n] in info && (info[order[n]].fInTried <==> n >= nNew))
    && (forall i :: i in info ==> i in order)
  }

  ghost predicate Describes(am: A.AddrMan, file: AddrFile, order: seq<int>)
    reads am
  {
    && file.key == am.key && file.nNew == am.nNew && file.nTried == am.nTried
    && Lists(am.mapInfo, order, am.nNew)
    && |file.newInfos| == file.nNew && |file.triedInfos| == file.nTried && |order| == file.nNew + file.nTried
    && (forall n :: 0 <= n < file.nNew ==> file.newInfos[n] == ToDisk(am.mapInfo[order[n]]))
    && (forall n :: file.nNew <= n < |order| ==> file.triedInfos[n - file.nNew] == ToDisk(am.mapInfo[order[n]]))
    && |file.buckets| == |am.vvNew|
    && forall b :: 0 <= b < |file.buckets| ==> BucketListed(am.vvNew[b], file.buckets[b], order, file.nNew)
  }

  /** A bucket written as positions in the order. */
  ghost predicate BucketListed(bucket: set<int>, list: seq<int>, order: seq<int>, nNew: int)
    requires nNew <= |order|
  {
    && |list| == |bucket| && Distinct(list)
    && (forall k :: 0 <= k < |list| ==> 0 <= list[k] < nNew)
    && (forall n :: 0 <= n < nNew ==> (n in list <==> order[n] in bucket))
  }

  // ---------- saving ----------

  /** The entries of one kind in id order, stopping as soon as their recorded number is reached. */
  method Collect(am: A.AddrMan, tried: bool, count: int) returns (ids: seq<int>, index: map<int, int>)
    requires am.Valid() && count == |if tried then TriedIds(am.mapInfo) else NewIds(am.mapInfo)|
    ensures Sorted(ids) && |ids| == count
    ensures forall i :: i in ids <==> i in am.mapInfo && am.mapInfo[i].fInTried == tried
    ensures forall n :: 0 <= n < |ids| ==> ids[n] in index && index[ids[n]] == n
  {
    hide TriedOk, NewOk, RefsOk, CountsOk, TriedIds, NewIds;
    ids, index := [], map[];
    ghost var seen: set<int> := {};
    ghost var all := if tried then TriedIds(am.mapInfo) else NewIds(am.mapInfo);
    KindIds(am.mapInfo, tried);
    var id := 0;
    while id < am.nIdCount && |ids| != count
      invariant 0 <= id <= am.nIdCount && Sorted(ids)
      invariant forall i :: i in ids <==> i in am.mapInfo && i < id && am.mapInfo[i].fInTried == tried
      invariant forall n :: 0 <= n < |ids| ==> ids[n] < id && ids[n] in index && index[ids[n]] == n
      invariant |seen| == |ids| && forall i :: i in seen <==> i in ids
    {
      if id in am.mapInfo {
        index := index[id := |ids|];
        assert EntryRangeOk(am.mapInfo[id]);
        // new entries are recognised by their reference count, tried ones by their flag
        if (if tried then am.mapInfo[id].fInTried else am.mapInfo[id].nRefCount != 0) {
          ids, seen := ids + [id], seen + {id};
        }
      }
      id := id + 1;
    }
    forall x | x in all ensures id == am.nIdCount ==> x in seen {
      assert x in am.mapInfo;
    }
    SameSize(seen, all, id == am.nIdCount);
  }

  lemma KindIds(info: InfoMap, tried: bool)
    ensures forall i :: i in (if tried then TriedIds(info) else NewIds(info)) <==> i in info && info[i].fInTried == tried
  {
  }

  /** A subset is everything if it is known to be or if it has as many members. */
  lemma SameSize(s: set<int>, t: set<int>, full: bool)
    requires forall x :: x in s ==> x in t
    requires full ==> forall x :: x in t ==> x in s
    requires full || |s| == |t|
    ensures |s| == |t| && forall x :: x in t ==> x in s
  {
    C.Subset(s, t);
    if full {
      C.Subset(t, s);
    }
    forall x | x in t ensures x in s {
      if x !in s {
        C.Subset(s + {x}, t);
      }
    }
  }

  method Save(am: A.AddrMan) returns (file: AddrFile, ghost order: seq<int>)
    requires am.Valid()
    ensures Describes(am, file, order)
    ensures forall i :: i in am.mapInfo ==>
              ToDisk(am.mapInfo[i]) in (if am.mapInfo[i].fInTried then file.triedInfos else file.newInfos)
  {
    hide Indexed, TriedOk, NewOk, RefsOk, RangeOk, TriedIds, NewIds, Sorted, BucketListed, Lists, Describes, ToDisk;
    var newIds, index := Collect(am, false, am.nNew);
    var triedIds, _ := Collect(am, true, am.nTried);
    order := newIds + triedIds;
    OrderLists(am.mapInfo, newIds, triedIds);
    var newInfos := Disk(am, newIds);
    var triedInfos := Disk(am, triedIds);
    var buckets := SaveBuckets(am, newIds, index, order);
    file := AddrFile(am.key, am.nNew, am.nTried, newInfos, triedInfos, buckets);
    Assembled(am, newIds, triedIds, file);
    forall i | i in am.mapInfo
      ensures ToDisk(am.mapInfo[i]) in (if am.mapInfo[i].fInTried then file.triedInfos else file.newInfos)
    {
      if am.mapInfo[i].fInTried {
        assert i in triedIds;
        var n :| 0 <= n < |triedIds| && triedIds[n] == i;
        assert file.triedInfos[n] == ToDisk(am.mapInfo[i]);
      } else {
        assert i in newIds;
        var n :| 0 <= n < |newIds| && newIds[n] == i;
        assert file.newInfos[n] == ToDisk(am.mapInfo[i]);
      }
    }
  }

  lemma Assembled(am: A.AddrMan, newIds: seq<int>, triedIds: seq<int>, file: AddrFile)
    requires am.nNew == |newIds| && am.nTried == |triedIds| && Lists(am.mapInfo, newIds + triedIds, am.nNew)
    requires forall n :: 0 <= n < |newIds| ==> newIds[n] in am.mapInfo
    requires forall n :: 0 <= n < |triedIds| ==> triedIds[n] in am.mapInfo
    requires file.key == am.key && file.nNew == am.nNew && file.nTried == am.nTried
    requires |file.newInfos| == |newIds| && forall n :: 0 <= n < |newIds| ==> file.newInfos[n] == ToDisk(am.mapInfo[newIds[n]])
    requires |file.triedInfos| == |triedIds| && forall n :: 0 <= n < |triedIds| ==> file.triedInfos[n] == ToDisk(am.mapInfo[triedIds[n]])
    requires |file.buckets| == |am.vvNew|
    requires forall b :: 0 <= b < |file.buckets| ==> BucketListed(am.vvNew[b], file.buckets[b], newIds + triedIds, am.nNew)
    ensures Describes(am, file, newIds + triedIds)
  {
    hide Lists, BucketListed, ToDisk;
    var order := newIds + triedIds;
    forall n | file.nNew <= n < |order| ensures order[n] in am.mapInfo && file.triedInfos[n - file.nNew] == ToDisk(am.mapInfo[order[n]]) {
      assert order[n] == triedIds[n - file.nNew];
    }
  }

  method SaveBuckets(am: A.AddrMan, newIds: seq<int>, index: map<int, int>, ghost order: seq<int>) returns (buckets: seq<seq<int>>)
    requires am.Valid() && am.nNew == |newIds| <= |order|
    requires forall n :: 0 <= n < |newIds| ==> order[n] == newIds[n] && newIds[n] in index && index[newIds[n]] == n
    requires forall i :: i in newIds <==> i in am.mapInfo && !am.mapInfo[i].fInTried
    ensures |buckets| == |am.vvNew|
    ensures forall b :: 0 <= b < |buckets| ==> BucketListed(am.vvNew[b], buckets[b], order, am.nNew)
  {
    hide A.AddrMan.Valid, BucketListed;
    buckets := [];
    for b := 0 to |am.vvNew|
      invariant |buckets| == b
      invariant forall c :: 0 <= c < b ==> BucketListed(am.vvNew[c], buckets[c], order, am.nNew)
    {
      var list := SaveBucket(am, b, newIds, index, order);
      buckets := buckets + [list];
    }
  }

  method Disk(am: A.AddrMan, ids: seq<int>) returns (infos: seq<DiskInfo>)
    requires forall n :: 0 <= n < |ids| ==> ids[n] in am.mapInfo
    ensures |infos| == |ids| && forall n :: 0 <= n < |ids| ==> infos[n] == ToDisk(am.mapInfo[ids[n]])
  {
    infos := [];
    for n := 0 to |ids|
      invariant |infos| == n && forall k :: 0 <= k < n ==> infos[k] == ToDisk(am.mapInfo[ids[k]])
    {
      infos := infos + [ToDisk(am.mapInfo[ids[n]])];
    }
  }

  lemma OrderLists(info: InfoMap, newIds: seq<int>, triedIds: seq<int>)
    requires Sorted(newIds) && Sorted(triedIds)
    requires forall i :: i in newIds <==> i in info && !info[i].fInTried
    requires forall i :: i in triedIds <==> i in info && info[i].fInTried
    ensures Lists(info, newIds + triedIds, |newIds|)
    ensures forall n :: 0 <= n < |newIds| ==> newIds[n] in info
    ensures forall n :: 0 <= n < |triedIds| ==> triedIds[n] in info
  {
    var order := newIds + triedIds;
    forall n | 0 <= n < |order| ensures order[n] in info && (info[order[n]].fInTried <==> n >= |newIds|) {
      var i := order[n];
      if n < |newIds| {
        assert newIds[n] == i && i in newIds;
      } else {
        assert triedIds[n - |newIds|] == i && i in triedIds;
      }
    }
    forall p, q | 0 <= p < q < |order| ensures order[p] != order[q] {
      if q < |newIds| {
        assert newIds[p] < newIds[q];
      } else if p >= |newIds| {
        assert triedIds[p - |newIds|] < triedIds[q - |newIds|];
      }
    }
    forall n | 0 <= n < |newIds| ensures newIds[n] in info {
      assert order[n] == newIds[n];
    }
    forall n | 0 <= n < |triedIds| ensures triedIds[n] in info {
      assert order[|newIds| + n] == triedIds[n];
    }
  }

  method SaveBucket(am: A.AddrMan, b: int, newIds: seq<int>, index: map<int, int>, ghost order: seq<int>)
    returns (list: seq<int>)
    requires am.Valid() && 0 <= b < |am.vvNew| && am.nNew == |newIds| <= |order|
    requires forall n :: 0 <= n < |newIds| ==> order[n] == newIds[n] && newIds[n] in index && index[newIds[n]] == n
    requires forall i :: i in newIds <==> i in am.mapInfo && !am.mapInfo[i].fInTried
    ensures BucketListed(am.vvNew[b], list, order, am.nNew)
  {
    hide Indexed, TriedOk, NewOk, RefsOk, RangeOk, CountsOk;
    A.BucketEntries(am.mapInfo, am.mapAddr, am.vRandom, am.nIdCount, am.vvNew, b);
    var ids := A.Ascending(am.vvNew[b], am.nIdCount);
    forall i | i in am.vvNew[b] ensures i in newIds && i in index && 0 <= index[i] < |newIds| && newIds[index[i]] == i {
      A.BucketEntry(am.mapInfo, am.vvNew, b, i);
      assert i in newIds;
      var n :| 0 <= n < |newIds| && newIds[n] == i;
    }
    list := [];
    for k := 0 to |ids|
      invariant |list| == k
      invariant forall j :: 0 <= j < k ==> ids[j] in index && list[j] == index[ids[j]]
    {
      assert ids[k] in ids;
      list := list + [index[ids[k]]];
    }
    ListedIs(am.vvNew[b], ids, list, newIds, index, order);
  }

  lemma ListedIs(bucket: set<int>, ids: seq<int>, list: seq<int>, newIds: seq<int>, index: map<int, int>, order: seq<int>)
    requires |ids| == |bucket| == |list| && |newIds| <= |order|
    requires forall i, j :: 0 <= i < j < |ids| ==> ids[i] < ids[j]
    requires forall x :: x in ids <==> x in bucket
    requires forall i :: i in bucket ==> i in index && 0 <= index[i] < |newIds| && newIds[index[i]] == i
    requires forall n :: 0 <= n < |newIds| ==> order[n] == newIds[n] && newIds[n] in index && index[newIds[n]] == n
    requires forall j :: 0 <= j < |ids| ==> ids[j] in index && list[j] == index[ids[j]]
    ensures BucketListed(bucket, list, order, |newIds|)
  {
    forall k | 0 <= k < |list| ensures 0 <= list[k] < |newIds| && newIds[list[k]] == ids[k] {
      var i := ids[k];
      assert i in ids && i in bucket;
    }
    forall n | 0 <= n < |newIds| ensures n in list <==> order[n] in bucket {
      var i := newIds[n];
      if i in bucket {
        assert i in ids;
        var k :| 0 <= k < |ids| && ids[k] == i;
        assert list[k] == n;
      }
      if n in list {
        var k :| 0 <= k < |list| && list[k] == n;
        assert ids[k] in ids;
      }
    }
  }

  // ---------- the state after reloading ----------

  /** An entry after saving and loading it as number n. */
  function Reloaded(e: AddrInfo, n: int): AddrInfo {
    e.(nLastTry := 0, nRandomPos := n)
  }

  ghost predicate SameEntries(infoS: InfoMap, infoL: InfoMap, order: seq<int>) {
    && (forall n :: n in infoL <==> 0 <= n < |order|)
    && forall n :: 0 <= n < |order| ==> order[n] in infoS && n in infoL && infoL[n] == Reloaded(infoS[order[n]], n)
  }

  ghost predicate Reindexed(infoL: InfoMap, byL: map<NetAddr, int>, randomL: seq<int>, count: int) {
    && |randomL| == count && (forall n :: 0 <= n < count ==> randomL[n] == n && n in infoL)
    && (forall n :: 0 <= n < count ==> infoL[n].service.ip in byL && byL[infoL[n].service.ip] == n)
    && (forall a :: a in byL ==> 0 <= byL[a] < count && infoL[byL[a]].service.ip == a)
  }

  ghost predicate SameNew(newS: seq<set<int>>, newL: seq<set<int>>, order: seq<int>) {
    && |newL| == |newS|
    && forall b :: 0 <= b < |newL| ==> SameBucket(newS[b], newL[b], order)
  }

  ghost predicate SameBucket(s: set<int>, l: set<int>, order: seq<int>) {
    && |l| == |s| && (forall n :: n in l ==> 0 <= n < |order|)
    && (forall n :: 0 <= n < |order| ==> (n in l <==> order[n] in s))
  }

  ghost predicate SameTriedBuckets(triedS: seq<seq<int>>, triedL: seq<seq<int>>, order: seq<int>) {
    && |triedL| == |triedS|
    && forall b :: 0 <= b < |triedL| ==>
         && |triedL[b]| <= TRIED_BUCKET_SIZE && Distinct(triedL[b])
         && (forall n :: n in triedL[b] ==> 0 <= n < |order|)
         && (forall n :: 0 <= n < |order| ==> (n in triedL[b] <==> order[n] in triedS[b]))
  }

  /** The loaded manager is the saved one with entry order[n] renamed to n. */
  ghost predicate Isomorphic(src: A.AddrMan, am: A.AddrMan, order: seq<int>)
    reads src, am
  {
    && am.key == src.key && am.nNew == src.nNew && am.nTried == src.nTried && am.nIdCount == |order|
    && Lists(src.mapInfo, order, src.nNew)
    && SameEntries(src.mapInfo, am.mapInfo, order) && Reindexed(am.mapInfo, am.mapAddr, am.vRandom, |order|)
    && SameNew(src.vvNew, am.vvNew, order) && SameTriedBuckets(src.vvTried, am.vvTried, order)
  }

  lemma ReindexedIsIndexed(infoS: InfoMap, infoL: InfoMap, byL: map<NetAddr, int>, randomL: seq<int>, order: seq<int>)
    requires SameEntries(infoS, infoL, order) && Reindexed(infoL, byL, randomL, |order|)
    ensures Indexed(infoL, byL, randomL, |order|)
  {
  }

  lemma IsoTried(key: Key, infoS: InfoMap, infoL: InfoMap, triedS: seq<seq<int>>, triedL: seq<seq<int>>, order: seq<int>)
    requires TriedOk(key, infoS, triedS) && SameEntries(infoS, infoL, order) && SameTriedBuckets(triedS, triedL, order)
    ensures TriedOk(key, infoL, triedL)
  {
    hide Distinct;
    forall b, n | 0 <= b < |triedL| && n in triedL[b]
      ensures n in infoL && infoL[n].fInTried && key.TriedBucket(infoL[n]) == b
    {
      var i := order[n];
      assert i in triedS[b] && i in infoS;
    }
    forall n | n in infoL && infoL[n].fInTried ensures n in triedL[key.TriedBucket(infoL[n])] {
      var i := order[n];
      assert i in infoS && i in triedS[key.TriedBucket(infoS[i])];
    }
  }

  lemma IsoNew(infoS: InfoMap, infoL: InfoMap, newS: seq<set<int>>, newL: seq<set<int>>, order: seq<int>)
    requires NewOk(infoS, newS) && RefsOk(infoS, newS, NOBODY) && RangeOk(infoS) && NOBODY !in infoS
    requires SameEntries(infoS, infoL, order) && SameNew(newS, newL, order)
    ensures NewOk(infoL, newL) && RefsOk(infoL, newL, NOBODY) && RangeOk(infoL)
  {
    forall b | 0 <= b < |newL| ensures |newL[b]| <= NEW_BUCKET_SIZE {
      assert SameBucket(newS[b], newL[b], order);
    }
    forall b, n | 0 <= b < |newL| && n in newL[b] ensures n in infoL && !infoL[n].fInTried {
      assert SameBucket(newS[b], newL[b], order);
      var i := order[n];
      assert i in newS[b] && i in infoS;
    }
    forall n | n in infoL
      ensures infoL[n].nRefCount == |Homes(newL, n)| + (if n == NOBODY then 1 else 0) && EntryRangeOk(infoL[n])
    {
      var i := order[n];
      assert i in infoS && EntryRangeOk(infoS[i]);
      SameHomes(newS, newL, order, n);
    }
  }

  lemma SameHomes(newS: seq<set<int>>, newL: seq<set<int>>, order: seq<int>, n: int)
    requires SameNew(newS, newL, order) && 0 <= n < |order|
    ensures Homes(newL, n) == Homes(newS, order[n])
  {
    forall b ensures b in Homes(newL, n) <==> b in Homes(newS, order[n]) {
      if 0 <= b < |newL| {
        assert SameBucket(newS[b], newL[b], order);
      }
    }
  }

  lemma Interval(s: set<int>, lo: int, hi: int)
    requires lo <= hi && forall x :: x in s <==> lo <= x < hi
    ensures |s| == hi - lo
    decreases hi - lo
  {
    if lo == hi {
      EmptySet(s);
    } else {
      assert hi - 1 in s;
      Interval(s - {hi - 1}, lo, hi - 1);
    }
  }

  lemma IsoCounts(infoS: InfoMap, infoL: InfoMap, random: seq<int>, order: seq<int>, nNew: int)
    requires Lists(infoS, order, nNew) && SameEntries(infoS, infoL, order) && |random| == |order|
    ensures CountsOk(infoL, random, |order| - nNew, nNew)
  {
    forall n ensures n in NewIds(infoL) <==> 0 <= n < nNew {
      if 0 <= n < |order| {
        assert order[n] in infoS;
      }
    }
    forall n ensures n in TriedIds(infoL) <==> nNew <= n < |order| {
      if 0 <= n < |order| {
        assert order[n] in infoS;
      }
    }
    Interval(NewIds(infoL), 0, nNew);
    Interval(TriedIds(infoL), nNew, |order|);
  }

  /** Renaming entries keeps consistency. */
  lemma IsomorphicIsValid(src: A.AddrMan, am: A.AddrMan, order: seq<int>)
    requires src.Valid() && Isomorphic(src, am, order)
    ensures am.Valid()
  {
    hide Indexed, TriedOk, NewOk, RefsOk, RangeOk, TriedIds, NewIds, Lists, SameEntries, Reindexed, SameNew, SameTriedBuckets;
    A.IdsNatural(src.mapInfo, src.mapAddr, src.vRandom, src.nIdCount);
    ReindexedIsIndexed(src.mapInfo, am.mapInfo, am.mapAddr, am.vRandom, order);
    IsoTried(src.key, src.mapInfo, am.mapInfo, src.vvTried, am.vvTried, order);
    IsoNew(src.mapInfo, am.mapInfo, src.vvNew, am.vvNew, order);
    RandomLength(am.mapInfo, am.mapAddr, am.vRandom, |order|);
    IsoCounts(src.mapInfo, am.mapInfo, am.vRandom, order, am.nNew);
    OrderLength(src.mapInfo, order, src.nNew);
  }

  lemma RandomLength(infoL: InfoMap, byL: map<NetAddr, int>, randomL: seq<int>, count: int)
    requires Reindexed(infoL, byL, randomL, count)
    ensures |randomL| == count
  {
  }

  /** The order is as long as the counters say. */
  lemma OrderLength(info: InfoMap, order: seq<int>, nNew: int)
    requires Lists(info, order, nNew)
    ensures |order| - nNew == |TriedIds(info)| && nNew == |NewIds(info)|
  {
    var newPart, triedPart := order[..nNew], order[nNew..];
    forall i ensures i in newPart <==> i in NewIds(info) {
      if i in info {
        var n :| 0 <= n < |order| && order[n] == i;
        if n < nNew { assert newPart[n] == i; } else { assert triedPart[n - nNew] == i; }
      }
    }
    forall i ensures i in triedPart <==> i in TriedIds(info) {
      if i in info {
        var n :| 0 <= n < |order| && order[n] == i;
        if n < nNew { assert newPart[n] == i; } else { assert triedPart[n - nNew] == i; }
      }
    }
    assert Distinct(newPart) && Distinct(triedPart);
    DistinctSize(newPart, NewIds(info));
    DistinctSize(triedPart, TriedIds(info));
  }

  lemma {:induction false} DistinctSize(s: seq<int>, t: set<int>)
    requires Distinct(s) && forall x :: x in s <==> x in t
    ensures |t| == |s|
  {
    if |s| == 0 {
      EmptySet(t);
    } else {
      var last := s[|s| - 1];
      var rest := s[..|s| - 1];
      assert last in s && s == rest + [last];
      forall x ensures x in rest <==> x in t - {last} {
        if x in rest {
          var k :| 0 <= k < |rest| && rest[k] == x;
          assert s[k] == x;
        }
      }
      DistinctSize(rest, t - {last});
    }
  }

  // ---------- loading ----------

  function Entry(file: AddrFile, n: int): DiskInfo
    requires 0 <= n < |file.newInfos| + |file.triedInfos|
  {
    if n < |file.newInfos| then file.newInfos[n] else file.triedInfos[n - |file.newInfos|]
  }

  /** The first m entries of the file have been read; counts of new buckets are still zero. */
  ghost predicate Read(file: AddrFile, m: int, info: InfoMap, byAddr: map<NetAddr, int>, random: seq<int>) {
    && 0 <= m <= |file.newInfos| + |file.triedInfos|
    && (forall n :: n in info <==> 0 <= n < m)
    && (forall n :: 0 <= n < m ==> n in info && info[n] == ReadEntry(file, n))
    && Reindexed(info, byAddr, random, m)
  }

  function ReadEntry(file: AddrFile, n: int): AddrInfo
    requires 0 <= n < |file.newInfos| + |file.triedInfos|
  {
    FromDisk(Entry(file, n)).(nRandomPos := n, fInTried := n >= |file.newInfos|)
  }

  ghost predicate DistinctAddresses(file: AddrFile) {
    forall m, n :: 0 <= m < n < |file.newInfos| + |file.triedInfos| ==> Entry(file, m).service.ip != Entry(file, n).service.ip
  }

  lemma ReadStep(file: AddrFile, m: int, info: InfoMap, byAddr: map<NetAddr, int>, random: seq<int>)
    requires DistinctAddresses(file) && m < |file.newInfos| + |file.triedInfos| && Read(file, m, info, byAddr, random)
    ensures var e := ReadEntry(file, m);
            Read(file, m + 1, info[m := e], byAddr[e.service.ip := m], random + [m])
  {
    var e := ReadEntry(file, m);
    forall n | 0 <= n < m ensures info[n].service.ip != e.service.ip {
    }
    forall a | a in byAddr && a != e.service.ip
      ensures 0 <= byAddr[a] < m && info[byAddr[a]].service.ip == a
    {
    }
  }

  method LoadNew(am: A.AddrMan, file: AddrFile)
    requires am.mapInfo == map[] && am.mapAddr == map[] && am.vRandom == [] && DistinctAddresses(file)
    modifies am`mapInfo, am`mapAddr, am`vRandom
    ensures Read(file, |file.newInfos|, am.mapInfo, am.mapAddr, am.vRandom)
  {
    hide Read, DistinctAddresses;
    ReadNothing(file);
    for n := 0 to |file.newInfos|
      invariant Read(file, n, am.mapInfo, am.mapAddr, am.vRandom)
    {
      ReadStep(file, n, am.mapInfo, am.mapAddr, am.vRandom);
      ReadLength(file, n, am.mapInfo, am.mapAddr, am.vRandom);
      var info := FromDisk(file.newInfos[n]);
      am.mapAddr := am.mapAddr[info.service.ip := n];
      am.mapInfo := am.mapInfo[n := info.(nRandomPos := |am.vRandom|)];
      am.vRandom := am.vRandom + [n];
    }
  }

  lemma ReadNothing(file: AddrFile)
    ensures Read(file, 0, map[], map[], [])
  {
  }

  lemma ReadLength(file: AddrFile, n: int, info: InfoMap, byAddr: map<NetAddr, int>, random: seq<int>)
    requires Read(file, n, info, byAddr, random)
    ensures |random| == n
  {
  }

  /** The tried buckets hold exactly the tried entries read so far. */
  ghost predicate ReadTried(key: Key, file: AddrFile, m: int, tried: seq<seq<int>>) {
    && |tried| == TRIED_BUCKET_COUNT && m <= |file.newInfos| + |file.triedInfos|
    && (forall b :: 0 <= b < |tried| ==> |tried[b]| <= TRIED_BUCKET_SIZE && Distinct(tried[b]))
    && (forall b, n :: 0 <= b < |tried| && n in tried[b] ==> |file.newInfos| <= n < m)
    && (forall b, n :: 0 <= b < |tried| && |file.newInfos| <= n < m ==>
          (n in tried[b] <==> key.TriedBucket(FromDisk(Entry(file, n))) == b))
  }

  lemma ReadTriedStep(key: Key, file: AddrFile, m: int, tried: seq<seq<int>>, b: int)
    requires |file.newInfos| <= m < |file.newInfos| + |file.triedInfos| && ReadTried(key, file, m, tried)
    requires b == key.TriedBucket(FromDisk(Entry(file, m))) && |tried[b]| < TRIED_BUCKET_SIZE
    ensures ReadTried(key, file, m + 1, tried[b := tried[b] + [m]])
  {
    var bucket := tried[b] + [m];
    assert forall n :: n in bucket <==> n in tried[b] || n == m;
    forall p, q | 0 <= p < q < |bucket| ensures bucket[p] != bucket[q] {
      assert bucket[p] in tried[b];
    }
  }

  /** There is room for every saved tried entry, so none is lost. */
  lemma RoomForTried(src: A.AddrMan, file: AddrFile, order: seq<int>, m: int, tried: seq<seq<int>>, b: int)
    requires src.Valid() && Describes(src, file, order)
    requires |file.newInfos| <= m < |order| && ReadTried(src.key, file, m, tried)
    requires b == src.key.TriedBucket(FromDisk(Entry(file, m)))
    ensures |tried[b]| < TRIED_BUCKET_SIZE
  {
    hide Indexed, NewOk, RefsOk, RangeOk, CountsOk, BucketListed;
    var u := tried[b] + [m];
    forall k | 0 <= k < |u| ensures 0 <= u[k] < |order| && order[u[k]] in src.vvTried[b] {
      var n := u[k];
      if k < |tried[b]| {
        assert n in tried[b];
      }
      SavedBucket(src, file, order, n);
    }
    forall p, q | 0 <= p < q < |u| ensures u[p] != u[q] {
      assert u[p] in tried[b];
    }
    Inject(u, order, src.vvTried[b]);
  }

  lemma SavedBucket(src: A.AddrMan, file: AddrFile, order: seq<int>, n: int)
    requires src.Valid() && Describes(src, file, order) && |file.newInfos| <= n < |order|
    ensures order[n] in src.mapInfo && src.mapInfo[order[n]].fInTried && Entry(file, n) == ToDisk(src.mapInfo[order[n]])
    ensures order[n] in src.vvTried[src.key.TriedBucket(FromDisk(Entry(file, n)))]
  {
    hide Indexed, NewOk, RefsOk, RangeOk, CountsOk, BucketListed, Distinct;
    var i := order[n];
    assert i in src.mapInfo && src.mapInfo[i].fInTried;
  }

  lemma {:induction false} Inject(u: seq<int>, order: seq<int>, s: seq<int>)
    requires Distinct(u) && Distinct(order)
    requires forall k :: 0 <= k < |u| ==> 0 <= u[k] < |order| && order[u[k]] in s
    ensures |u| <= |s|
    decreases |u|
  {
    if |u| > 0 {
      var last := u[|u| - 1];
      var x := order[last];
      var p :| 0 <= p < |s| && s[p] == x;
      var rest, less := u[..|u| - 1], s[..p] + s[p + 1..];
      forall k | 0 <= k < |rest| ensures 0 <= rest[k] < |order| && order[rest[k]] in less {
        var y := order[u[k]];
        var q :| 0 <= q < |s| && s[q] == y;
        assert u[k] != last && y != x;
        if q < p { assert less[q] == y; } else { assert less[q - 1] == y; }
      }
      Inject(rest, order, less);
    }
  }

  method LoadTried(am: A.AddrMan, file: AddrFile, ghost src: A.AddrMan, ghost order: seq<int>) returns (nLost: int)
    requires am != src && src.Valid() && Describes(src, file, order) && DistinctAddresses(file) && am.key == src.key
    requires Read(file, |file.newInfos|, am.mapInfo, am.mapAddr, am.vRandom) && am.nIdCount == |file.newInfos|
    requires ReadTried(am.key, file, |file.newInfos|, am.vvTried) && am.nTried == |file.triedInfos|
    modifies am`mapInfo, am`mapAddr, am`vRandom, am`vvTried, am`nIdCount
    ensures nLost == 0 && am.nIdCount == |order|
    ensures Read(file, |order|, am.mapInfo, am.mapAddr, am.vRandom) && ReadTried(am.key, file, |order|, am.vvTried)
  {
    hide Read, DistinctAddresses, ReadTried, A.AddrMan.Valid;
    nLost := 0;
    FileLength(src, file, order);
    for n := 0 to am.nTried
      invariant nLost == 0 && am.nIdCount == |file.newInfos| + n
      invariant Read(file, am.nIdCount, am.mapInfo, am.mapAddr, am.vRandom)
      invariant ReadTried(am.key, file, am.nIdCount, am.vvTried)
    {
      var info := FromDisk(file.triedInfos[n]);
      var b := am.key.TriedBucket(info);
      BucketCount(am.key, file, am.nIdCount, am.vvTried);
      RoomForTried(src, file, order, am.nIdCount, am.vvTried, b);
      if |am.vvTried[b]| < TRIED_BUCKET_SIZE {
        ReadStep(file, am.nIdCount, am.mapInfo, am.mapAddr, am.vRandom);
        ReadLength(file, am.nIdCount, am.mapInfo, am.mapAddr, am.vRandom);
        ReadTriedStep(am.key, file, am.nIdCount, am.vvTried, b);
        info := info.(nRandomPos := |am.vRandom|, fInTried := true);
        am.vRandom := am.vRandom + [am.nIdCount];
        am.mapInfo := am.mapInfo[am.nIdCount := info];
        am.mapAddr := am.mapAddr[info.service.ip := am.nIdCount];
        am.vvTried := am.vvTried[b := am.vvTried[b] + [am.nIdCount]];
        am.nIdCount := am.nIdCount + 1;
      } else {
        nLost := nLost + 1;
      }
    }
  }

  lemma BucketCount(key: Key, file: AddrFile, m: int, tried: seq<seq<int>>)
    requires ReadTried(key, file, m, tried)
    ensures |tried| == TRIED_BUCKET_COUNT
  {
  }

  lemma FileLength(src: A.AddrMan, file: AddrFile, order: seq<int>)
    requires Describes(src, file, order)
    ensures |order| == |file.newInfos| + |file.triedInfos|
  {
    hide Lists, BucketListed;
  }

  /** Entries as read, with the number of new buckets restored so far. */
  ghost predicate Counted(file: AddrFile, count: int, info: InfoMap, vNew: seq<set<int>>) {
    && 0 <= count <= |file.newInfos| + |file.triedInfos|
    && (forall n :: n in info <==> 0 <= n < count)
    && forall n :: 0 <= n < count ==> n in info && info[n] == ReadEntry(file, n).(nRefCount := |Homes(vNew, n)|)
  }

  /** Buckets below b are restored, those after b are empty. */
  ghost predicate Restored(newS: seq<set<int>>, newL: seq<set<int>>, order: seq<int>, b: int) {
    && |newL| == |newS| && 0 <= b <= |newL|
    && (forall c :: 0 <= c < b ==> SameBucket(newS[c], newL[c], order))
    && (forall c :: b < c < |newL| ==> newL[c] == {})
  }

  /** The limit of four buckets turns no saved reference away. */
  lemma RoomForReference(info: InfoMap, newS: seq<set<int>>, newL: seq<set<int>>, order: seq<int>, b: int, n: int)
    requires RefsOk(info, newS, NOBODY) && RangeOk(info) && NOBODY !in info
    requires Restored(newS, newL, order, b) && 0 <= b < |newL| && 0 <= n < |order|
    requires order[n] in info && order[n] in newS[b] && n !in newL[b]
    ensures |Homes(newL, n)| < NEW_BUCKETS_PER_ADDRESS
  {
    var i := order[n];
    var s, l := Homes(newS, i), Homes(newL, n);
    assert EntryRangeOk(info[i]);
    assert b in s && b !in l;
    forall c | c in l ensures c in s - {b} {
      if c < b {
        assert SameBucket(newS[c], newL[c], order);
      }
    }
    C.Subset(l, s - {b});
  }

  lemma CountedInsert(file: AddrFile, count: int, info: InfoMap, vNew: seq<set<int>>, b: int, n: int)
    requires Counted(file, count, info, vNew) && 0 <= n < count && 0 <= b < |vNew| && n !in vNew[b]
    ensures n in info && Counted(file, count, info[n := A.Ref(info[n])], vNew[b := vNew[b] + {n}])
  {
    forall m | 0 <= m < count
      ensures |Homes(vNew[b := vNew[b] + {n}], m)| == |Homes(vNew, m)| + (if m == n then 1 else 0)
    {
      HomesInsert(vNew, b, n, m);
    }
    hide Homes;
  }

  method LoadBucket(am: A.AddrMan, b: int, file: AddrFile, ghost src: A.AddrMan, ghost order: seq<int>)
    requires am != src && src.Valid() && Describes(src, file, order) && 0 <= b < |file.buckets|
    requires Counted(file, |order|, am.mapInfo, am.vvNew) && Restored(src.vvNew, am.vvNew, order, b) && am.vvNew[b] == {}
    modifies am`mapInfo, am`vvNew
    ensures Counted(file, |order|, am.mapInfo, am.vvNew) && Restored(src.vvNew, am.vvNew, order, b)
    ensures SameBucket(src.vvNew[b], am.vvNew[b], order)
    ensures am.vvNew == old(am.vvNew)[b := am.vvNew[b]]
  {
    hide Counted, Indexed, TriedOk, NewOk, RefsOk, RangeOk, CountsOk, SameBucket, Distinct, Lists;
    var list := file.buckets[b];
    A.IdsNatural(src.mapInfo, src.mapAddr, src.vRandom, src.nIdCount);
    ListFacts(src, file, order, b);
    for k := 0 to |list|
      invariant |am.vvNew| == |src.vvNew| && am.vvNew == old(am.vvNew)[b := am.vvNew[b]]
      invariant |am.vvNew[b]| == k && forall n :: n in am.vvNew[b] <==> n in list[..k]
      invariant Counted(file, |order|, am.mapInfo, am.vvNew)
    {
      var n := list[k];
      NotBefore(list, k);
      assert Restored(src.vvNew, am.vvNew, order, b);
      RoomForReference(src.mapInfo, src.vvNew, am.vvNew, order, b, n);
      CountedInsert(file, |order|, am.mapInfo, am.vvNew, b, n);
      CountOf(file, |order|, am.mapInfo, am.vvNew, n);
      if am.mapInfo[n].nRefCount < NEW_BUCKETS_PER_ADDRESS {
        am.mapInfo := am.mapInfo[n := A.Ref(am.mapInfo[n])];
        am.vvNew := am.vvNew[b := am.vvNew[b] + {n}];
      }
      assert forall j :: j in list[..k + 1] <==> j in list[..k] || j == n;
    }
    assert list[..|list|] == list;
    BucketRestored(src, file, order, b, am.vvNew[b]);
  }

  lemma NotBefore(list: seq<int>, k: int)
    requires Distinct(list) && 0 <= k < |list|
    ensures list[k] !in list[..k]
  {
  }

  lemma CountOf(file: AddrFile, count: int, info: InfoMap, vNew: seq<set<int>>, n: int)
    requires Counted(file, count, info, vNew) && 0 <= n < count
    ensures n in info && info[n].nRefCount == |Homes(vNew, n)|
  {
    hide Homes;
  }

  lemma ListFacts(src: A.AddrMan, file: AddrFile, order: seq<int>, b: int)
    requires src.Valid() && Describes(src, file, order) && 0 <= b < |file.buckets|
    ensures |file.buckets| == |src.vvNew| && Distinct(file.buckets[b]) && |file.buckets[b]| == |src.vvNew[b]|
    ensures forall k :: 0 <= k < |file.buckets[b]| ==>
              var n := file.buckets[b][k];
              0 <= n < |order| && order[n] in src.mapInfo && order[n] in src.vvNew[b]
  {
    hide Indexed, TriedOk, NewOk, RefsOk, RangeOk, CountsOk, Distinct;
    assert BucketListed(src.vvNew[b], file.buckets[b], order, file.nNew);
    forall k | 0 <= k < |file.buckets[b]|
      ensures 0 <= file.buckets[b][k] < |order| && order[file.buckets[b][k]] in src.mapInfo
              && order[file.buckets[b][k]] in src.vvNew[b]
    {
      var n := file.buckets[b][k];
      assert n in file.buckets[b];
    }
  }

  lemma BucketRestored(src: A.AddrMan, file: AddrFile, order: seq<int>, b: int, bucket: set<int>)
    requires src.Valid() && Describes(src, file, order) && 0 <= b < |file.buckets|
    requires |bucket| == |file.buckets[b]| && forall n :: n in bucket <==> n in file.buckets[b]
    ensures SameBucket(src.vvNew[b], bucket, order)
  {
    hide Indexed, TriedOk, RefsOk, RangeOk, CountsOk, Distinct;
    assert BucketListed(src.vvNew[b], file.buckets[b], order, file.nNew);
    forall n | 0 <= n < |order| ensures n in bucket <==> order[n] in src.vvNew[b] {
      var i := order[n];
      if n >= file.nNew {
        assert i in src.mapInfo && src.mapInfo[i].fInTried;
      }
    }
  }

  lemma NothingCounted(file: AddrFile, count: int, info: InfoMap, byAddr: map<NetAddr, int>, random: seq<int>, vNew: seq<set<int>>)
    requires Read(file, count, info, byAddr, random) && forall b :: 0 <= b < |vNew| ==> vNew[b] == {}
    ensures Counted(file, count, info, vNew)
  {
    forall n | 0 <= n < count ensures |Homes(vNew, n)| == 0 {
      NoHomes(vNew, n);
    }
    hide Homes;
  }

  /** Reads a saved file into a fresh manager. */
  method Load(file: AddrFile, ghost src: A.AddrMan, ghost order: seq<int>) returns (am: A.AddrMan)
    requires src.Valid() && Describes(src, file, order)
    ensures fresh(am) && Isomorphic(src, am, order) && am.Valid()
  {
    hide Counted, Read, ReadTried, Restored, DistinctAddresses, Describes, SameBucket, Lists, SameEntries,
      Reindexed, SameNew, SameTriedBuckets, A.AddrMan.Valid;
    am := new A.AddrMan.Empty(file.key, file.nNew, file.nTried);
    FileFacts(src, file, order);
    LoadNew(am, file);
    am.nIdCount := am.nNew;
    NoneTried(am.key, file, am.vvTried);
    var nLost := LoadTried(am, file, src, order);
    am.nTried := am.nTried - nLost;
    ghost var info, byAddr := am.mapInfo, am.mapAddr;
    NothingCounted(file, |order|, am.mapInfo, am.mapAddr, am.vRandom, am.vvNew);
    RestoredNone(src.vvNew, am.vvNew, order);
    for b := 0 to |file.buckets|
      invariant Counted(file, |order|, am.mapInfo, am.vvNew) && |am.vvNew| == |file.buckets|
      invariant b < |file.buckets| ==> Restored(src.vvNew, am.vvNew, order, b) && am.vvNew[b] == {}
      invariant b == |file.buckets| ==> SameNew(src.vvNew, am.vvNew, order)
      modifies am`mapInfo, am`vvNew
    {
      LoadBucket(am, b, file, src, order);
      RestoredNext(src.vvNew, am.vvNew, order, b);
    }
    EntriesRestored(src, file, order, am.mapInfo, am.vvNew);
    ReindexedStays(file, |order|, info, am.mapInfo, am.mapAddr, am.vRandom, am.vvNew);
    TriedRestored(src, file, order, am.vvTried);
    IsomorphicIsValid(src, am, order);
  }

  lemma FileFacts(src: A.AddrMan, file: AddrFile, order: seq<int>)
    requires src.Valid() && Describes(src, file, order)
    ensures DistinctAddresses(file) && file.key == src.key && file.nNew == src.nNew == |file.newInfos|
    ensures file.nTried == src.nTried == |file.triedInfos| && |file.buckets| == |src.vvNew| == NEW_BUCKET_COUNT
    ensures Lists(src.mapInfo, order, src.nNew) && |order| == |file.newInfos| + |file.triedInfos|
  {
    hide TriedOk, RefsOk, RangeOk, CountsOk, BucketListed;
    forall m, n | 0 <= m < n < |order| ensures Entry(file, m).service.ip != Entry(file, n).service.ip {
      var i, j := order[m], order[n];
      assert i in src.mapInfo && j in src.mapInfo && i != j;
      assert src.mapAddr[src.mapInfo[i].service.ip] == i && src.mapAddr[src.mapInfo[j].service.ip] == j;
    }
  }

  lemma NoneTried(key: Key, file: AddrFile, tried: seq<seq<int>>)
    requires |tried| == TRIED_BUCKET_COUNT && forall b :: 0 <= b < |tried| ==> tried[b] == []
    ensures ReadTried(key, file, |file.newInfos|, tried)
  {
  }

  lemma RestoredNone(newS: seq<set<int>>, newL: seq<set<int>>, order: seq<int>)
    requires |newL| == |newS| && forall c :: 0 <= c < |newL| ==> newL[c] == {}
    ensures Restored(newS, newL, order, 0)
  {
  }

  lemma RestoredNext(newS: seq<set<int>>, newL: seq<set<int>>, order: seq<int>, b: int)
    requires Restored(newS, newL, order, b) && 0 <= b < |newL| && SameBucket(newS[b], newL[b], order)
    ensures b + 1 < |newL| ==> Restored(newS, newL, order, b + 1) && newL[b + 1] == {}
    ensures b + 1 == |newL| ==> SameNew(newS, newL, order)
  {
    hide SameBucket;
  }

  lemma EntriesRestored(src: A.AddrMan, file: AddrFile, order: seq<int>, info: InfoMap, vNew: seq<set<int>>)
    requires src.Valid() && Describes(src, file, order)
    requires Counted(file, |order|, info, vNew) && SameNew(src.vvNew, vNew, order)
    ensures SameEntries(src.mapInfo, info, order)
  {
    hide TriedOk, NewOk, RangeOk, CountsOk, BucketListed, Distinct, Homes, SameNew, Indexed;
    A.IdsNatural(src.mapInfo, src.mapAddr, src.vRandom, src.nIdCount);
    forall n | 0 <= n < |order| ensures order[n] in src.mapInfo && info[n] == Reloaded(src.mapInfo[order[n]], n) {
      var i := order[n];
      assert i in src.mapInfo;
      SameHomes(src.vvNew, vNew, order, n);
    }
  }

  lemma ReindexedStays(file: AddrFile, count: int, before: InfoMap, after: InfoMap, byAddr: map<NetAddr, int>, random: seq<int>,
                       vNew: seq<set<int>>)
    requires Read(file, count, before, byAddr, random) && Counted(file, count, after, vNew)
    ensures Reindexed(after, byAddr, random, count)
  {
    hide Homes;
    forall n | 0 <= n < count ensures n in after && after[n].service == before[n].service {
    }
  }

  lemma TriedRestored(src: A.AddrMan, file: AddrFile, order: seq<int>, tried: seq<seq<int>>)
    requires src.Valid() && Describes(src, file, order) && ReadTried(src.key, file, |order|, tried)
    ensures SameTriedBuckets(src.vvTried, tried, order)
  {
    hide Indexed, NewOk, RefsOk, RangeOk, CountsOk, BucketListed, Distinct;
    forall b, n | 0 <= b < |tried| && 0 <= n < |order| ensures n in tried[b] <==> order[n] in src.vvTried[b] {
      var i := order[n];
      assert i in src.mapInfo;
      if n >= |file.newInfos| {
        SavedBucket(src, file, order, n);
      }
    }
  }

  lemma IsomorphicTimes(src: A.AddrMan, am: A.AddrMan, order: seq<int>)
    requires Isomorphic(src, am, order) && src.TimesOk()
    ensures am.TimesOk()
  {
    hide Lists, Reindexed, SameNew, SameTriedBuckets;
    forall n | n in am.mapInfo ensures A.EntryTimesOk(am.mapInfo[n]) {
      var i := order[n];
      assert i in src.mapInfo && A.EntryTimesOk(src.mapInfo[i]);
    }
  }

  /** Saving and loading gives the same manager up to the names of its entries. */
  method Reload(src: A.AddrMan) returns (am: A.AddrMan, ghost order: seq<int>)
    requires src.Valid()
    ensures fresh(am) && am.Valid() && Isomorphic(src, am, order)
    ensures src.TimesOk() ==> am.TimesOk()
  {
    hide Isomorphic, A.AddrMan.Valid, A.AddrMan.TimesOk;
    var file;
    file, order := Save(src);
    am := Load(file, src, order);
    if src.TimesOk() {
      IsomorphicTimes(src, am, order);
    }
  }
}
