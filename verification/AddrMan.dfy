/** The address manager: every operation, under every random choice, keeps the tables
    consistent. (src/addrman.cpp, src/addrman.h) */
module AddrMan {
  import opened Basics
  import opened AddrTables

  const HORIZON_DAYS := 30
  const RETRIES := 3
  const MAX_FAILURES := 10
  const MIN_FAIL_DAYS := 7
  const GETADDR_MAX_PCT := 23
  const GETADDR_MAX := 2500

  datatype Address = Address(service: Service, services: set<nat>, nTime: int)

  function AddressOf(e: AddrInfo): Address { Address(e.service, e.services, e.nTime) }

  function NewInfo(addr: Address, source: NetAddr): AddrInfo {
    AddrInfo(addr.service, addr.services, addr.nTime, source, 0, 0, 0, 0, false, -1)
  }

  /** Bad enough to be deleted. */
  predicate IsTerrible(e: AddrInfo, nNow: int) {
    !(e.nLastTry != 0 && e.nLastTry >= nNow - 60) &&
    (e.nTime > nNow + 10 * 60
     || e.nTime == 0 || nNow - e.nTime > HORIZON_DAYS * 86400
     || (e.nLastSuccess == 0 && e.nAttempts >= RETRIES)
     || (nNow - e.nLastSuccess > MIN_FAIL_DAYS * 86400 && e.nAttempts >= MAX_FAILURES))
  }

  /** Any number below nMax; zero if there is none. */
  method GetRandInt(nMax: int) returns (r: int)
    ensures nMax > 0 ==> 0 <= r < nMax
    ensures nMax <= 0 ==> r == 0
  {
    if nMax <= 0 {
      return 0;
    }
    r :| 0 <= r < nMax;
  }

  /** The order in which a std::set<int> of ids below n is walked. */
  method Ascending(s: set<int>, n: nat) returns (q: seq<int>)
    requires forall x :: x in s ==> 0 <= x < n
    ensures forall i, j :: 0 <= i < j < |q| ==> q[i] < q[j]
    ensures forall x :: x in q <==> x in s
    ensures |q| == |s|
  {
    q := [];
    ghost var rest := s;
    for k := 0 to n
      invariant forall i, j :: 0 <= i < j < |q| ==> q[i] < q[j]
      invariant forall i :: 0 <= i < |q| ==> q[i] < k
      invariant forall x :: x in q <==> x in s && x < k
      invariant |rest| + |q| == |s|
      invariant forall x :: x in rest <==> x in s && x >= k
    {
      if k in s {
        q, rest := q + [k], rest - {k};
      }
    }
    EmptySet(rest);
  }

  class AddrMan {
    const key: Key
    var nIdCount: int
    var mapInfo: InfoMap
    var mapAddr: map<NetAddr, int>
    var vRandom: seq<int>
    var nTried: int
    var vvTried: seq<seq<int>>
    var nNew: int
    var vvNew: seq<set<int>>

    /** The tables would be consistent with these entries, except that entry bonus already
        counts a bucket it is not in yet. */
    ghost predicate Consistent(info: InfoMap, bonus: int)
      reads `nIdCount, `mapAddr, `vRandom, `vvTried, `vvNew, `nTried, `nNew
    {
      && nIdCount >= 0
      && Indexed(info, mapAddr, vRandom, nIdCount)
      && TriedOk(key, info, vvTried)
      && NewOk(info, vvNew)
      && RefsOk(info, vvNew, bonus)
      && RangeOk(info)
      && CountsOk(info, vRandom, nTried, nNew)
    }

    ghost predicate Midway(bonus: int)
      reads this
    {
      Consistent(mapInfo, bonus)
    }

    ghost predicate Valid()
      reads this
    {
      Midway(NOBODY)
    }

    /** The part of the consistency check that looks at time stamps. */
    ghost predicate TimesOk()
      reads this
    {
      forall i :: i in mapInfo ==> EntryTimesOk(mapInfo[i])
    }

    constructor (key: Key)
      ensures Valid() && TimesOk() && mapInfo == map[] && this.key == key
    {
      this.key := key;
      nIdCount, nTried, nNew := 0, 0, 0;
      mapInfo, mapAddr, vRandom := map[], map[], [];
      vvTried := seq(TRIED_BUCKET_COUNT, _ => []);
      vvNew := seq(NEW_BUCKET_COUNT, _ => {});
    }

    /** The cleared state a load starts from, with the counters of the file. */
    constructor Empty(key: Key, nNew: int, nTried: int)
      ensures this.key == key && this.nNew == nNew && this.nTried == nTried && nIdCount == 0
      ensures mapInfo == map[] && mapAddr == map[] && vRandom == []
      ensures |vvTried| == TRIED_BUCKET_COUNT && forall b :: 0 <= b < |vvTried| ==> vvTried[b] == []
      ensures |vvNew| == NEW_BUCKET_COUNT && forall b :: 0 <= b < |vvNew| ==> vvNew[b] == {}
    {
      this.key, this.nNew, this.nTried := key, nNew, nTried;
      nIdCount := 0;
      mapInfo, mapAddr, vRandom := map[], map[], [];
      vvTried := seq(TRIED_BUCKET_COUNT, _ => []);
      vvNew := seq(NEW_BUCKET_COUNT, _ => {});
    }

    function Find(addr: NetAddr): (r: (bool, int))
      requires Valid()
      reads this
      ensures r.0 ==> r.1 in mapInfo && mapInfo[r.1].service.ip == addr
      ensures !r.0 ==> forall i :: i in mapInfo ==> mapInfo[i].service.ip != addr
    {
      if addr in mapAddr then (true, mapAddr[addr]) else (false, 0)
    }

    method SwapRandom(p: int, q: int)
      requires Indexed(mapInfo, mapAddr, vRandom, nIdCount) && 0 <= p < |vRandom| && 0 <= q < |vRandom|
      modifies `mapInfo, `vRandom
      ensures Indexed(mapInfo, mapAddr, vRandom, nIdCount) && SameButPosition(old(mapInfo), mapInfo)
      ensures vRandom == old(vRandom[p := vRandom[q]][q := vRandom[p]])
    {
      if p == q {
        return;
      }
      var id1, id2 := vRandom[p], vRandom[q];
      SwapKeepsIndex(mapInfo, mapAddr, vRandom, nIdCount, p, q);
      hide Indexed;
      mapInfo := mapInfo[id1 := mapInfo[id1].(nRandomPos := q)];
      mapInfo := mapInfo[id2 := mapInfo[id2].(nRandomPos := p)];
      vRandom := vRandom[p := id2];
      vRandom := vRandom[q := id1];
    }

    /** Takes v out of new bucket b, and deletes it if that was its last one. */
    method DropFromNew(b: int, v: int, ghost bonus: int)
      requires Midway(bonus) && 0 <= b < |vvNew| && v in vvNew[b] && v != bonus
      modifies `mapInfo, `mapAddr, `vRandom, `nNew, `vvNew
      ensures Midway(bonus) && vvNew == old(vvNew)[b := old(vvNew)[b] - {v}]
      ensures Survivors(old(mapInfo), mapInfo, v)
      ensures v in mapInfo <==> old(mapInfo[v].nRefCount) > 1
    {
      hide Indexed, TriedOk, NewOk, RefsOk, RangeOk, TriedIds, NewIds;
      BucketEntry(mapInfo, vvNew, b, v);
      ghost var info := mapInfo;
      DropKeepsRefs(info, vvNew, b, v, bonus);
      mapInfo := mapInfo[v := Unref(mapInfo[v])];
      DropKeepsTried(key, info, vvTried, v);
      ShapeKeepsIndex(info, mapInfo, mapAddr, vRandom, nIdCount);
      UnrefRange(info, v);
      if mapInfo[v].nRefCount == 0 {
        DeleteUnreferenced(v, bonus, vvNew[b := vvNew[b] - {v}]);
      }
      vvNew := vvNew[b := vvNew[b] - {v}];
    }

    method DeleteUnreferenced(v: int, ghost bonus: int, ghost vNew: seq<set<int>>)
      requires v in mapInfo && !mapInfo[v].fInTried
      requires Indexed(mapInfo, mapAddr, vRandom, nIdCount) && TriedOk(key, mapInfo - {v}, vvTried)
      requires NewOk(mapInfo - {v}, vNew) && RefsOk(mapInfo - {v}, vNew, bonus) && RangeOk(mapInfo - {v})
      requires CountsOk(mapInfo, vRandom, nTried, nNew)
      modifies `mapInfo, `mapAddr, `vRandom, `nNew
      ensures Indexed(mapInfo, mapAddr, vRandom, nIdCount) && TriedOk(key, mapInfo, vvTried)
      ensures NewOk(mapInfo, vNew) && RefsOk(mapInfo, vNew, bonus) && RangeOk(mapInfo)
      ensures CountsOk(mapInfo, vRandom, nTried, nNew)
      ensures SameButPosition(old(mapInfo) - {v}, mapInfo)
    {
      hide Indexed, TriedOk, NewOk, RefsOk, RangeOk, TriedIds, NewIds;
      ghost var info := mapInfo;
      PositionInRange(mapInfo, mapAddr, vRandom, nIdCount, v);
      SwapRandom(mapInfo[v].nRandomPos, |vRandom| - 1);
      ghost var swapped := mapInfo;
      PositionInRange(mapInfo, mapAddr, vRandom, nIdCount, v);
      LastPosition(mapInfo, mapAddr, vRandom, nIdCount, v);
      DeleteKeepsIndex(mapInfo, mapAddr, vRandom, nIdCount, v);
      vRandom := vRandom[..|vRandom| - 1];
      mapAddr := mapAddr - {mapInfo[v].service.ip};
      mapInfo := mapInfo - {v};
      nNew := nNew - 1;
      PositionKeepsTables(key, info - {v}, mapInfo, vvTried, vNew, bonus);
      DeleteCounts(info, v);
    }

    /** Makes room in a new bucket: drops its first terrible entry if it has one, otherwise
        the oldest of some inspected entries. */
    method ShrinkNew(b: int, nNow: int, ghost bonus: int) returns (r: int, ghost victim: int, ghost inspected: set<int>)
      requires Midway(bonus) && 0 <= b < |vvNew| && |vvNew[b]| > 0 && bonus !in vvNew[b]
      modifies `mapInfo, `mapAddr, `vRandom, `nNew, `vvNew
      ensures Midway(bonus) && victim in old(vvNew[b]) && victim in old(mapInfo)
      ensures vvNew == old(vvNew)[b := old(vvNew)[b] - {victim}]
      ensures Survivors(old(mapInfo), mapInfo, victim)
      ensures victim in mapInfo <==> old(mapInfo)[victim].nRefCount > 1
      ensures forall w :: w in old(vvNew[b]) ==> w in old(mapInfo)
      ensures r == 0 ==> IsTerrible(old(mapInfo)[victim], nNow) &&
                         forall w :: w in old(vvNew[b]) && IsTerrible(old(mapInfo)[w], nNow) ==> victim <= w
      ensures r != 0 ==> && (forall w :: w in old(vvNew[b]) ==> !IsTerrible(old(mapInfo)[w], nNow))
                         && victim in inspected && (forall w :: w in inspected ==> w in old(vvNew[b]))
                         && forall w :: w in inspected ==> old(mapInfo)[victim].nTime <= old(mapInfo)[w].nTime
    {
      hide Indexed, TriedOk, NewOk, RefsOk, RangeOk, CountsOk, IsTerrible, Survivors;
      BucketEntries(mapInfo, mapAddr, vRandom, nIdCount, vvNew, b);
      inspected := {};
      var order := Ascending(vvNew[b], nIdCount);
      var at := FirstTerrible(order, nNow);
      if at < |order| {
        DropFromNew(b, order[at], bonus);
        return 0, order[at], inspected;
      }
      var oldest;
      oldest, inspected := OldestOfFour(order);
      DropFromNew(b, oldest, bonus);
      return 1, oldest, inspected;
    }

    method FirstTerrible(order: seq<int>, nNow: int) returns (at: nat)
      requires forall i :: 0 <= i < |order| ==> order[i] in mapInfo
      ensures at <= |order| && (forall i :: 0 <= i < at ==> !IsTerrible(mapInfo[order[i]], nNow))
      ensures at < |order| ==> IsTerrible(mapInfo[order[at]], nNow)
    {
      hide IsTerrible;
      at := 0;
      while at < |order|
        invariant 0 <= at <= |order|
        invariant forall i :: 0 <= i < at ==> !IsTerrible(mapInfo[order[i]], nNow)
      {
        if IsTerrible(mapInfo[order[at]], nNow) {
          return;
        }
        at := at + 1;
      }
    }

    method OldestOfFour(order: seq<int>) returns (oldest: int, ghost inspected: set<int>)
      requires |order| > 0 && forall i :: 0 <= i < |order| ==> order[i] in mapInfo
      ensures oldest in order && oldest in mapInfo && oldest in inspected
      ensures forall w :: w in inspected ==> w in order && w in mapInfo && mapInfo[oldest].nTime <= mapInfo[w].nTime
    {
      var n0 := GetRandInt(|order|);
      var n1 := GetRandInt(|order|);
      var n2 := GetRandInt(|order|);
      var n3 := GetRandInt(|order|);
      inspected := {};
      oldest := NOBODY;
      var chosen := false;
      for i := 0 to |order|
        invariant chosen ==> oldest in order && oldest in mapInfo && oldest in inspected
        invariant i > n0 ==> chosen
        invariant forall w :: w in inspected ==> chosen && w in order && w in mapInfo && mapInfo[oldest].nTime <= mapInfo[w].nTime
      {
        if i == n0 || i == n1 || i == n2 || i == n3 {
          if !chosen || mapInfo[order[i]].nTime < mapInfo[oldest].nTime {
            oldest := order[i];
            chosen := true;
          }
          inspected := inspected + {order[i]};
        }
      }
    }

    /** Shuffles the first few positions of a tried bucket, exchanging position i with a drawn
        one, and returns a position to give up. After the shuffle the least recently successful
        of those entries is at oldestAt; the position returned is the one it was drawn from,
        where it stood just before its exchange. So it stands there now exactly if it was
        drawn from its own place. */
    method SelectTried(b: int) returns (pos: int, ghost draws: seq<int>, ghost oldestAt: int)
      requires 0 <= b < |vvTried| && |vvTried[b]| > 0 && Distinct(vvTried[b])
      requires NOBODY !in mapInfo && forall i :: i in vvTried[b] ==> i in mapInfo
      modifies `vvTried
      ensures |vvTried| == |old(vvTried)| && vvTried == old(vvTried)[b := vvTried[b]]
      ensures Reordered(old(vvTried)[b], vvTried[b])
      ensures |draws| == Inspected(vvTried[b]) && DrawsOk(draws, |vvTried[b]|)
      ensures vvTried[b] == Shuffled(old(vvTried)[b], draws, |draws|)
      ensures OldestOf(mapInfo, vvTried[b], |draws|, oldestAt) && pos == draws[oldestAt]
      ensures Shuffled(old(vvTried)[b], draws, oldestAt)[pos] == vvTried[b][oldestAt]
      ensures vvTried[b][pos] == vvTried[b][oldestAt] <==> draws[oldestAt] == oldestAt
    {
      hide Distinct, Reordered, Shuffled;
      var oldest := NOBODY;
      pos, oldestAt, draws := NOBODY, 0, [];
      var i := 0;
      ReorderedRefl(vvTried[b]);
      ShuffleNone(vvTried[b]);
      while i < TRIED_ENTRIES_INSPECT_ON_EVICT && i < |vvTried[b]|
        invariant |vvTried| == |old(vvTried)| && vvTried == old(vvTried)[b := vvTried[b]]
        invariant 0 <= i <= Inspected(vvTried[b])
        invariant Reordered(old(vvTried)[b], vvTried[b])
        invariant |vvTried[b]| > 0 && forall i :: i in vvTried[b] ==> i in mapInfo
        invariant i == 0 <==> oldest == NOBODY
        invariant |vvTried[b]| == |old(vvTried)[b]|
        invariant |draws| == i && DrawsOk(draws, |vvTried[b]|) && vvTried[b] == Shuffled(old(vvTried)[b], draws, i)
        invariant i > 0 ==> OldestOf(mapInfo, vvTried[b], i, oldestAt) && oldest == vvTried[b][oldestAt]
        invariant i > 0 ==> pos == draws[oldestAt]
        decreases |vvTried[b]| - i
      {
        var bucket := vvTried[b];
        var nPos := GetRandInt(|bucket| - i);
        nPos := nPos + i;
        var temp := bucket[nPos];
        assert temp in bucket;
        SwapReorders(old(vvTried)[b], bucket, i, nPos);
        ShuffleOnce(old(vvTried)[b], draws, nPos);
        vvTried := vvTried[b := bucket[nPos := bucket[i]][i := temp]];
        draws := draws + [nPos];
        ghost var after := vvTried[b];
        assert forall l :: 0 <= l < i ==> after[l] == bucket[l];
        if oldest == NOBODY || mapInfo[temp].nLastSuccess < mapInfo[oldest].nLastSuccess {
          oldest, pos, oldestAt := temp, nPos, i;
        }
        i := i + 1;
      }
      SameEntryIff(old(vvTried)[b], vvTried[b], pos, oldestAt);
      DrawnEntryStays(old(vvTried)[b], draws, oldestAt, |draws|);
    }

    /** Takes an entry out of every new bucket. */
    method ClearNew(v: int)
      requires v in mapInfo && mapInfo[v].nRefCount == |Homes(vvNew, v)|
      modifies `mapInfo, `vvNew
      ensures |vvNew| == |old(vvNew)| && forall b :: 0 <= b < |vvNew| ==> vvNew[b] == old(vvNew)[b] - {v}
      ensures mapInfo == old(mapInfo)[v := old(mapInfo)[v].(nRefCount := 0)]
    {
      hide Homes;
      var n := |vvNew|;
      for k := 0 to n
        invariant |vvNew| == n == |old(vvNew)|
        invariant forall b :: 0 <= b < k ==> vvNew[b] == old(vvNew)[b] - {v}
        invariant forall b :: k <= b < n ==> vvNew[b] == old(vvNew)[b]
        invariant v in mapInfo && mapInfo[v].nRefCount == |Homes(vvNew, v)|
        invariant mapInfo == old(mapInfo)[v := old(mapInfo)[v].(nRefCount := mapInfo[v].nRefCount)]
      {
        if v in vvNew[k] {
          HomesRemove(vvNew, k, v, v);
          vvNew := vvNew[k := vvNew[k] - {v}];
          mapInfo := mapInfo[v := Unref(mapInfo[v])];
        }
      }
      NoHomes(vvNew, v);
    }

    /** Moves an entry from the new to the tried buckets; a full tried bucket gives one entry
        back to the new buckets. */
    method MakeTried(nId: int, nOrigin: int) returns (ghost evicted: int)
      requires Valid() && 0 <= nOrigin < |vvNew| && nId in vvNew[nOrigin] && nId in mapInfo
      modifies `mapInfo, `vvNew, `vvTried, `nTried, `nNew
      ensures Valid() && MovedToTried(old(mapInfo), mapInfo, nId, evicted)
      ensures evicted == NOBODY <==> |old(vvTried)[key.TriedBucket(old(mapInfo)[nId])]| < TRIED_BUCKET_SIZE
      ensures evicted == NOBODY ==> nTried == old(nTried) + 1
    {
      hide Indexed, TriedOk, NewOk, RefsOk, RangeOk, TriedIds, NewIds, Homes;
      ghost var info, news := mapInfo, vvNew;
      BucketEntry(mapInfo, vvNew, nOrigin, nId);
      EntryIn(mapInfo, mapAddr, vRandom, nIdCount, vvNew, nId);
      ClearNew(nId);
      ClearKeepsNew(info, news, vvNew, nId);
      nNew := nNew - 1;
      ghost var cleared := mapInfo;
      SameTried(key, info, mapInfo, vvTried);
      OtherRanges(info, nId);
      var b := key.TriedBucket(mapInfo[nId]);
      TriedShape(key, mapInfo, vvTried, b);
      RoomAtOrigin(info, news, vvNew, nId, nOrigin);
      if |vvTried[b]| < TRIED_BUCKET_SIZE {
        Push(nId, b);
        evicted := NOBODY;
      } else {
        evicted := Evict(nId, nOrigin, b);
      }
      MovedIndex(info, cleared, mapInfo, nId, evicted);
      ShapeKeepsIndex(info, mapInfo, mapAddr, vRandom, nIdCount);
    }

    /** The half of MakeTried for a bucket with room. */
    method Push(nId: int, b: int)
      requires nId in mapInfo && nId >= 0 && mapInfo[nId].nRefCount == 0 && !mapInfo[nId].fInTried
      requires TriedOk(key, mapInfo, vvTried) && NewOk(mapInfo, vvNew) && RefsOk(mapInfo, vvNew, NOBODY)
      requires forall i :: i in mapInfo && i != nId ==> EntryRangeOk(mapInfo[i])
      requires b == key.TriedBucket(mapInfo[nId]) && b < |vvTried| && |vvTried[b]| < TRIED_BUCKET_SIZE
      requires nTried == |TriedIds(mapInfo)| && nNew == |NewIds(mapInfo)| - 1
      modifies `mapInfo, `vvTried, `nTried
      ensures TriedOk(key, mapInfo, vvTried) && NewOk(mapInfo, vvNew) && RefsOk(mapInfo, vvNew, NOBODY) && RangeOk(mapInfo)
      ensures nTried == |TriedIds(mapInfo)| == old(nTried) + 1 && nNew == |NewIds(mapInfo)|
      ensures mapInfo == old(mapInfo)[nId := old(mapInfo)[nId].(fInTried := true)]
    {
      hide TriedOk, NewOk, RefsOk, TriedIds, NewIds;
      PushKeepsTried(key, mapInfo, vvTried, nId);
      PromoteKeepsNew(mapInfo, vvNew, nId);
      vvTried := vvTried[b := vvTried[b] + [nId]];
      nTried := nTried + 1;
      mapInfo := mapInfo[nId := mapInfo[nId].(fInTried := true)];
    }

    /** The full-bucket half of MakeTried. */
    method Evict(nId: int, nOrigin: int, b: int) returns (ghost evicted: int)
      requires nId in mapInfo && nId >= 0 && mapInfo[nId].nRefCount == 0 && !mapInfo[nId].fInTried && NOBODY !in mapInfo
      requires TriedOk(key, mapInfo, vvTried) && NewOk(mapInfo, vvNew) && RefsOk(mapInfo, vvNew, NOBODY)
      requires forall i :: i in mapInfo && i != nId ==> EntryRangeOk(mapInfo[i])
      requires b == key.TriedBucket(mapInfo[nId]) && b < |vvTried| && |vvTried[b]| > 0
      requires 0 <= nOrigin < |vvNew| && |vvNew[nOrigin]| < NEW_BUCKET_SIZE
      requires nTried == |TriedIds(mapInfo)| && nNew == |NewIds(mapInfo)| - 1
      modifies `mapInfo, `vvNew, `vvTried, `nNew
      ensures TriedOk(key, mapInfo, vvTried) && NewOk(mapInfo, vvNew) && RefsOk(mapInfo, vvNew, NOBODY) && RangeOk(mapInfo)
      ensures nTried == |TriedIds(mapInfo)| && nNew == |NewIds(mapInfo)| == old(nNew) + 1
      ensures evicted in old(mapInfo) && evicted != nId && old(mapInfo)[evicted].fInTried
      ensures mapInfo == old(mapInfo)[evicted := Evicted(old(mapInfo)[evicted])]
                                     [nId := old(mapInfo)[nId].(fInTried := true)]
    {
      hide Distinct, TriedOk, NewOk, RefsOk, TriedIds, NewIds, Homes, Reordered;
      ghost var info, tried := mapInfo, vvTried;
      TriedShape(key, mapInfo, vvTried, b);
      var pos, _, _ := SelectTried(b);
      ReorderKeepsTried(key, mapInfo, tried, b, vvTried[b]);
      ReplaceKeepsTried(key, mapInfo, vvTried, nId, pos);
      var e := vvTried[b][pos];
      evicted := e;
      TriedMember(key, mapInfo, vvTried, b, pos);
      var u := key.NewBucket(mapInfo[e], mapInfo[e].source);
      NewShape(mapInfo, vvNew);
      var target := if |vvNew[u]| < NEW_BUCKET_SIZE then u else nOrigin;
      EvictKeepsNew(mapInfo, vvNew, e, target);
      mapInfo := mapInfo[e := Evicted(mapInfo[e])];
      vvNew := vvNew[target := vvNew[target] + {e}];
      nNew := nNew + 1;
      PromoteKeepsNew(mapInfo, vvNew, nId);
      vvTried := vvTried[b := vvTried[b][pos := nId]];
      mapInfo := mapInfo[nId := mapInfo[nId].(fInTried := true)];
    }

    /** The entry for exactly this address and port. */
    ghost predicate Matches(addr: Service)
      reads this
    {
      addr.ip in mapAddr && mapAddr[addr.ip] in mapInfo && mapInfo[mapAddr[addr.ip]].service == addr
    }

    /** A new bucket that holds an entry, searched from a random one; -1 if there is none. */
    method FindBucket(nId: int) returns (nUBucket: int)
      requires |vvNew| == NEW_BUCKET_COUNT
      ensures nUBucket == -1 <==> forall b :: 0 <= b < |vvNew| ==> nId !in vvNew[b]
      ensures nUBucket != -1 ==> 0 <= nUBucket < |vvNew| && nId in vvNew[nUBucket]
    {
      var nRnd := GetRandInt(|vvNew|);
      var n := 0;
      while n < |vvNew|
        invariant 0 <= n <= |vvNew|
        invariant forall k :: 0 <= k < n ==> nId !in vvNew[Rotate(k, nRnd)]
      {
        var nB := Rotate(n, nRnd);
        if nId in vvNew[nB] {
          return nB;
        }
        n := n + 1;
      }
      forall b | 0 <= b < |vvNew| ensures nId !in vvNew[b] {
        var k := if b >= nRnd then b - nRnd else b - nRnd + NEW_BUCKET_COUNT;
        assert Rotate(k, nRnd) == b;
      }
      return -1;
    }

    /** A good connection: the entry, if it is known, becomes tried. */
    method Good(addr: Service, nTime: int) returns (ghost evicted: int)
      requires Valid()
      modifies `mapInfo, `vvNew, `vvTried, `nTried, `nNew
      ensures Valid()
      ensures old(!Matches(addr)) ==> mapInfo == old(mapInfo) && vvNew == old(vvNew) && vvTried == old(vvTried)
                                      && nTried == old(nTried) && nNew == old(nNew)
      ensures old(Matches(addr)) ==>
                var nId := mapAddr[addr.ip];
                && MovedToTried(old(mapInfo[nId := Succeeded(mapInfo[nId], nTime)]), mapInfo, nId, evicted)
                && (old(TimesOk()) ==> (TimesOk() <==> nTime > 0))
    {
      hide Indexed, TriedOk, NewOk, RefsOk, RangeOk, CountsOk;
      evicted := NOBODY;
      FindFacts(mapInfo, mapAddr, vRandom, nIdCount);
      if addr.ip !in mapAddr {
        return;
      }
      var nId := mapAddr[addr.ip];
      if mapInfo[nId].service != addr {
        return;
      }
      ghost var before := mapInfo;
      mapInfo := mapInfo[nId := Succeeded(mapInfo[nId], nTime)];
      ghost var stamped := mapInfo;
      ShapeKeeps(key, before, mapInfo, mapAddr, vRandom, nIdCount, vvTried, vvNew, nTried, nNew);
      if mapInfo[nId].fInTried {
        AlreadyTried(mapInfo, nId);
        GoodTimes(before, stamped, mapInfo, nId, nTime, NOBODY);
        return;
      }
      NewShape(mapInfo, vvNew);
      var nUBucket := FindBucket(nId);
      EntryIn(mapInfo, mapAddr, vRandom, nIdCount, vvNew, nId);
      HasBucket(mapInfo, vvNew, nId);
      if nUBucket == -1 {
        return;
      }
      evicted := MakeTried(nId, nUBucket);
      GoodTimes(before, stamped, mapInfo, nId, nTime, evicted);
    }

    method Attempt(addr: Service, nTime: int)
      requires Valid()
      modifies `mapInfo
      ensures Valid()
      ensures mapInfo == if old(Matches(addr)) then
                           old(mapInfo[mapAddr[addr.ip] := Attempted(mapInfo[mapAddr[addr.ip]], nTime)])
                         else old(mapInfo)
      ensures old(TimesOk() && Matches(addr)) ==> (TimesOk() <==> nTime >= 0)
    {
      hide Indexed, TriedOk, NewOk, RefsOk, RangeOk, CountsOk;
      FindFacts(mapInfo, mapAddr, vRandom, nIdCount);
      if addr.ip !in mapAddr {
        return;
      }
      var nId := mapAddr[addr.ip];
      if mapInfo[nId].service != addr {
        return;
      }
      ghost var before := mapInfo;
      mapInfo := mapInfo[nId := Attempted(mapInfo[nId], nTime)];
      ShapeKeeps(key, before, mapInfo, mapAddr, vRandom, nIdCount, vvTried, vvNew, nTried, nNew);
      assert EntryTimesOk(before[nId]) ==> (EntryTimesOk(mapInfo[nId]) <==> nTime >= 0);
    }

    method Connected(addr: Service, nTime: int)
      requires Valid()
      modifies `mapInfo
      ensures Valid() && (old(TimesOk()) ==> TimesOk())
      ensures mapInfo == if old(Matches(addr) && nTime - mapInfo[mapAddr[addr.ip]].nTime > 20 * 60) then
                           old(mapInfo[mapAddr[addr.ip] := mapInfo[mapAddr[addr.ip]].(nTime := nTime)])
                         else old(mapInfo)
    {
      hide Indexed, TriedOk, NewOk, RefsOk, RangeOk, CountsOk;
      FindFacts(mapInfo, mapAddr, vRandom, nIdCount);
      if addr.ip !in mapAddr {
        return;
      }
      var nId := mapAddr[addr.ip];
      if mapInfo[nId].service != addr {
        return;
      }
      if nTime - mapInfo[nId].nTime > 20 * 60 {
        ghost var before := mapInfo;
        mapInfo := mapInfo[nId := mapInfo[nId].(nTime := nTime)];
        ShapeKeeps(key, before, mapInfo, mapAddr, vRandom, nIdCount, vvTried, vvNew, nTried, nNew);
      }
    }

    /** Addresses to send to a peer: distinct known ones, at most 23 percent and at most 2500. */
    method GetAddr() returns (vAddr: seq<Address>)
      requires Valid()
      modifies `mapInfo, `vRandom
      ensures Valid() && SameButPosition(old(mapInfo), mapInfo)
      ensures |vAddr| == Min(GETADDR_MAX_PCT * |old(vRandom)| / 100, GETADDR_MAX)
      ensures forall k :: 0 <= k < |vAddr| ==> Known(vAddr[k])
      ensures forall k, l :: 0 <= k < l < |vAddr| ==> vAddr[k].service.ip != vAddr[l].service.ip
    {
      hide Indexed, TriedOk, NewOk, RefsOk, RangeOk, TriedIds, NewIds;
      var nNodes := GETADDR_MAX_PCT * |vRandom| / 100;
      if nNodes > GETADDR_MAX {
        nNodes := GETADDR_MAX;
      }
      vAddr := [];
      PositionRefl(mapInfo);
      RandomEntries(mapInfo, mapAddr, vRandom, nIdCount);
      for n := 0 to nNodes
        invariant |vAddr| == n && |vRandom| == |old(vRandom)|
        invariant Indexed(mapInfo, mapAddr, vRandom, nIdCount) && SameButPosition(old(mapInfo), mapInfo)
        invariant forall j :: 0 <= j < |vRandom| ==> vRandom[j] in mapInfo
        invariant forall k :: 0 <= k < n ==> vAddr[k] == AddressOf(mapInfo[vRandom[k]])
      {
        ghost var before, was := mapInfo, vRandom;
        var nRndPos := GetRandInt(|vRandom| - n);
        SwapRandom(n, n + nRndPos);
        RandomEntries(mapInfo, mapAddr, vRandom, nIdCount);
        forall k | 0 <= k < n ensures vAddr[k] == AddressOf(mapInfo[vRandom[k]]) {
          var i := was[k];
          assert vRandom[k] == i && i in before;
        }
        vAddr := vAddr + [AddressOf(mapInfo[vRandom[n]])];
      }
      PositionKeepsTables(key, old(mapInfo), mapInfo, vvTried, vvNew, NOBODY);
      forall k, l | 0 <= k < l < |vAddr| ensures vAddr[k].service.ip != vAddr[l].service.ip {
        DistinctAddresses(mapInfo, mapAddr, vRandom, nIdCount, k, l);
      }
      forall k | 0 <= k < |vAddr| ensures Known(vAddr[k]) {
        var i := vRandom[k];
        assert i in mapInfo && vAddr[k] == AddressOf(mapInfo[i]);
      }
    }

    ghost predicate Known(a: Address)
      reads this
    {
      exists i :: i in mapInfo && a == AddressOf(mapInfo[i])
    }

    /** A fresh entry at the end of vRandom, in no bucket yet. */
    method Create(addr: Address, source: NetAddr) returns (nId: int)
      modifies `nIdCount, `mapInfo, `mapAddr, `vRandom
      ensures nId == old(nIdCount) && nIdCount == nId + 1 && vRandom == old(vRandom) + [nId]
      ensures mapInfo == old(mapInfo)[nId := NewInfo(addr, source).(nRandomPos := |old(vRandom)|)]
      ensures mapAddr == old(mapAddr)[addr.service.ip := nId]
    {
      nId := nIdCount;
      nIdCount := nIdCount + 1;
      mapInfo := mapInfo[nId := NewInfo(addr, source)];
      mapAddr := mapAddr[addr.service.ip := nId];
      mapInfo := mapInfo[nId := mapInfo[nId].(nRandomPos := |vRandom|)];
      vRandom := vRandom + [nId];
    }

    /** Updates a known entry; skip tells that it gets no further bucket. */
    method Refresh(nId: int, addr: Address, nTimePenalty: int, nNow: int) returns (skip: bool)
      requires nId in mapInfo
      modifies `mapInfo
      ensures nId in mapInfo && mapInfo == old(mapInfo)[nId := Refreshed(old(mapInfo)[nId], addr, nTimePenalty, nNow)]
      ensures !skip ==> MayRefer(mapInfo[nId], addr)
    {
      mapInfo := mapInfo[nId := Refreshed(mapInfo[nId], addr, nTimePenalty, nNow)];
      var e := mapInfo[nId];
      if addr.nTime == 0 || (e.nTime != 0 && addr.nTime <= e.nTime) {
        return true;
      }
      if e.fInTried {
        return true;
      }
      if e.nRefCount == NEW_BUCKETS_PER_ADDRESS {
        return true;
      }
      var nFactor := 1;
      var n := 0;
      while n < e.nRefCount {
        nFactor := nFactor * 2;
        n := n + 1;
      }
      if nFactor > 1 {
        var r := GetRandInt(nFactor);
        if r != 0 {
          return true;
        }
      }
      return false;
    }

    /** Puts an entry that already counts the reference into a new bucket. */
    method Insert(nId: int, b: int, nNow: int) returns (ghost victim: int)
      requires Midway(nId) && nId in mapInfo && !mapInfo[nId].fInTried
      requires 0 <= b < |vvNew| && nId !in vvNew[b]
      modifies `mapInfo, `mapAddr, `vRandom, `nNew, `vvNew
      ensures Valid() && Survivors(old(mapInfo), mapInfo, victim) && victim != nId
      ensures nId in mapInfo && b < |vvNew| && nId in vvNew[b]
      ensures victim == NOBODY <==> |old(vvNew)[b]| < NEW_BUCKET_SIZE
    {
      hide Indexed, TriedOk, NewOk, RefsOk, RangeOk, CountsOk, IsTerrible;
      BucketSize(mapInfo, vvNew, b);
      IdsNatural(mapInfo, mapAddr, vRandom, nIdCount);
      BucketEntries(mapInfo, mapAddr, vRandom, nIdCount, vvNew, b);
      if |vvNew[b]| == NEW_BUCKET_SIZE {
        var r;
        ghost var inspected;
        r, victim, inspected := ShrinkNew(b, nNow, nId);
        IdsNatural(mapInfo, mapAddr, vRandom, nIdCount);
      } else {
        victim := NOBODY;
      }
      InsertKeepsNew(mapInfo, vvNew, nId, b);
      vvNew := vvNew[b := vvNew[b] + {nId}];
    }

    /** A known address: its entry is brought up to date. */
    method Update(nId: int, addr: Address, nTimePenalty: int, nNow: int) returns (skip: bool)
      requires Valid() && nId in mapInfo
      modifies `mapInfo
      ensures Valid() && |vvNew| == NEW_BUCKET_COUNT
      ensures nId in mapInfo && mapInfo == old(mapInfo)[nId := Refreshed(old(mapInfo)[nId], addr, nTimePenalty, nNow)]
      ensures !skip ==> MayRefer(mapInfo[nId], addr) && Consistent(mapInfo[nId := Ref(mapInfo[nId])], nId)
      ensures mapInfo[nId].service == old(mapInfo)[nId].service
      ensures EntryTimesOk(old(mapInfo)[nId]) ==> EntryTimesOk(mapInfo[nId])
    {
      hide Indexed, TriedOk, NewOk, RefsOk, RangeOk, CountsOk;
      ghost var info := mapInfo;
      skip := Refresh(nId, addr, nTimePenalty, nNow);
      ShapeKeeps(key, info, mapInfo, mapAddr, vRandom, nIdCount, vvTried, vvNew, nTried, nNew);
      NewShape(mapInfo, vvNew);
      if !skip {
        BumpKeeps(key, mapInfo, mapAddr, vRandom, nIdCount, vvTried, vvNew, nTried, nNew, nId);
      }
    }

    /** An unknown address: it gets an entry that is in no bucket yet. */
    method CreateNew(addr: Address, source: NetAddr, nTimePenalty: int) returns (nId: int)
      requires Valid() && addr.service.ip !in mapAddr
      modifies `nIdCount, `mapInfo, `mapAddr, `vRandom, `nNew
      ensures nId == old(nIdCount) && nId !in old(mapInfo) && |vvNew| == NEW_BUCKET_COUNT
      ensures mapInfo == old(mapInfo)[nId := Aged(NewInfo(addr, source), nTimePenalty).(nRandomPos := |old(vRandom)|)]
      ensures Consistent(mapInfo[nId := Ref(mapInfo[nId])], nId)
      ensures forall b :: 0 <= b < |vvNew| ==> nId !in vvNew[b]
    {
      hide Indexed, TriedOk, NewOk, RefsOk, RangeOk, CountsOk;
      ghost var info := mapInfo;
      IdsNatural(mapInfo, mapAddr, vRandom, nIdCount);
      NewShape(mapInfo, vvNew);
      nId := Create(addr, source);
      mapInfo := mapInfo[nId := Aged(mapInfo[nId], nTimePenalty)];
      nNew := nNew + 1;
      CreatedKeeps(key, info, old(mapAddr), old(vRandom), nId, vvTried, vvNew, nTried, nNew - 1, mapInfo[nId]);
      assert mapInfo[nId := Ref(mapInfo[nId])] == info[nId := Ref(mapInfo[nId])];
    }

    /** Adds an address heard of from a source. A known address is brought up to date and may get
        one more new bucket, if it has news and room for it; an unknown one is created and put
        into a bucket. A full bucket loses one entry, never the one being added; all other
        entries keep everything but their position. */
    method Add(addr: Address, fRoutable: bool, source: NetAddr, nTimePenalty: int, nNow: int)
      returns (fNew: bool, ghost referred: bool, ghost victim: int)
      requires Valid()
      modifies `nIdCount, `mapInfo, `mapAddr, `vRandom, `nNew, `vvNew
      ensures Valid() && (old(TimesOk()) ==> TimesOk())
      ensures fNew <==> fRoutable && addr.service.ip !in old(mapAddr)
      ensures !fRoutable ==> mapInfo == old(mapInfo) && mapAddr == old(mapAddr) && vvNew == old(vvNew)
                             && vRandom == old(vRandom) && nNew == old(nNew) && nIdCount == old(nIdCount)
      ensures fRoutable ==> addr.service.ip in mapAddr && mapAddr[addr.service.ip] in mapInfo
      ensures fRoutable ==> var nId := mapAddr[addr.service.ip];
                var e := if fNew then Aged(NewInfo(addr, source), nTimePenalty)
                         else Refreshed(old(mapInfo)[old(mapAddr)[addr.service.ip]], addr, nTimePenalty, nNow);
                && nId == (if fNew then old(nIdCount) else old(mapAddr)[addr.service.ip])
                && Survivors(old(mapInfo)[nId := if referred then Ref(e) else e], mapInfo, victim) && victim != nId
                && (referred ==> fNew || MayRefer(e, addr))
                && (referred ==> nId in vvNew[key.NewBucket(e, source)] && nId !in old(vvNew)[key.NewBucket(e, source)])
                && (fNew ==> referred) && (!referred ==> vvNew == old(vvNew) && victim == NOBODY)
    {
      hide Indexed, TriedOk, NewOk, RefsOk, RangeOk, CountsOk, Refreshed, Valid, Consistent, Survivors, EntryTimesOk;
      fNew, referred, victim := false, false, NOBODY;
      if !fRoutable {
        return;
      }
      AddressesKnown();
      var nId;
      ghost var info := mapInfo;
      if addr.service.ip in mapAddr {
        nId := mapAddr[addr.service.ip];
        var skip := Update(nId, addr, nTimePenalty, nNow);
        if skip {
          SurvivorsRefl(mapInfo);
          return;
        }
      } else {
        nId := CreateNew(addr, source, nTimePenalty);
        fNew := true;
      }
      ghost var mid := mapInfo;
      referred, victim := Refer(nId, source, nNow);
      ghost var e := if fNew then Aged(NewInfo(addr, source), nTimePenalty) else mid[nId];
      AddedSurvive(info, mid, mapInfo, nId, if referred then Ref(mid[nId]) else mid[nId], if referred then Ref(e) else e, victim);
      EntryTimes(addr, source, nTimePenalty, mid[nId]);
      AddressesKnown();
    }

    /** Puts an entry into its new bucket for the source, unless it is there. */
    method Refer(nId: int, source: NetAddr, nNow: int) returns (ghost referred: bool, ghost victim: int)
      requires nId in mapInfo && !mapInfo[nId].fInTried && |vvNew| == NEW_BUCKET_COUNT
      requires Consistent(mapInfo[nId := Ref(mapInfo[nId])], nId)
      requires Valid() || forall b :: 0 <= b < |vvNew| ==> nId !in vvNew[b]
      modifies `mapInfo, `mapAddr, `vRandom, `nNew, `vvNew
      ensures Valid() && victim != nId && nId in mapInfo && |vvNew| == NEW_BUCKET_COUNT
      ensures Survivors(old(mapInfo)[nId := if referred then Ref(old(mapInfo)[nId]) else old(mapInfo)[nId]], mapInfo, victim)
      ensures var b := key.NewBucket(old(mapInfo)[nId], source);
              && (referred <==> nId !in old(vvNew)[b]) && nId in vvNew[b]
      ensures !referred ==> vvNew == old(vvNew) && victim == NOBODY
    {
      hide Indexed, TriedOk, NewOk, RefsOk, RangeOk, CountsOk, Survivors;
      referred, victim := false, NOBODY;
      var nUBucket := key.NewBucket(mapInfo[nId], source);
      if nId !in vvNew[nUBucket] {
        mapInfo := mapInfo[nId := Ref(mapInfo[nId])];
        referred := true;
        victim := Insert(nId, nUBucket, nNow);
        NewShape(mapInfo, vvNew);
      } else {
        SurvivorsRefl(mapInfo);
        AddressesKnown();
        assert mapInfo[nId := mapInfo[nId]] == mapInfo;
      }
    }

    lemma AddressesKnown()
      requires Valid()
      ensures forall a :: a in mapAddr ==> mapAddr[a] in mapInfo && mapInfo[mapAddr[a]].service.ip == a
      ensures forall i :: i in mapInfo ==> mapInfo[i].service.ip in mapAddr && mapAddr[mapInfo[i].service.ip] == i
      ensures NOBODY !in mapInfo
    {
      hide TriedOk, NewOk, RefsOk, RangeOk, CountsOk;
    }
  }

  datatype Operation =
    | DoAdd(address: Address, fRoutable: bool, source: NetAddr, nTimePenalty: int, nNow: int)
    | DoGood(service: Service, nTime: int)
    | DoAttempt(service: Service, nTime: int)
    | DoConnected(service: Service, nTime: int)
    | DoGetAddr

  /** Connections are reported with positive times, attempts with non-negative ones. */
  predicate Timely(op: Operation) {
    (op.DoGood? ==> op.nTime > 0) && (op.DoAttempt? ==> op.nTime >= 0)
  }

  /** Every sequence of operations, under every random choice, keeps the tables consistent. */
  method Run(am: AddrMan, ops: seq<Operation>)
    requires am.Valid()
    modifies am
    ensures am.Valid()
    ensures old(am.TimesOk()) && (forall k :: 0 <= k < |ops| ==> Timely(ops[k])) ==> am.TimesOk()
  {
    hide AddrMan.Valid, AddrMan.TimesOk, MovedToTried, SameButPosition;
    for k := 0 to |ops|
      invariant am.Valid()
      invariant old(am.TimesOk()) && (forall j :: 0 <= j < k ==> Timely(ops[j])) ==> am.TimesOk()
    {
      Perform(am, ops[k]);
    }
  }

  method Perform(am: AddrMan, op: Operation)
    requires am.Valid()
    modifies am
    ensures am.Valid() && (old(am.TimesOk()) && Timely(op) ==> am.TimesOk())
  {
    hide AddrMan.Consistent, MovedToTried;
    match op {
      case DoAdd(address, fRoutable, source, nTimePenalty, nNow) =>
        var _, _, _ := am.Add(address, fRoutable, source, nTimePenalty, nNow);
      case DoGood(service, nTime) =>
        var _ := am.Good(service, nTime);
      case DoAttempt(service, nTime) =>
        am.Attempt(service, nTime);
      case DoConnected(service, nTime) =>
        am.Connected(service, nTime);
      case DoGetAddr =>
        var _ := am.GetAddr();
    }
  }

  function Aged(e: AddrInfo, nTimePenalty: int): AddrInfo {
    e.(nTime := if e.nTime - nTimePenalty > 0 then e.nTime - nTimePenalty else 0)
  }

  function Ref(e: AddrInfo): AddrInfo { e.(nRefCount := e.nRefCount + 1) }

  /** Time and services of a known entry after hearing of its address again. */
  function Refreshed(e: AddrInfo, addr: Address, nTimePenalty: int, nNow: int): AddrInfo {
    var interval := if nNow - addr.nTime < 24 * 60 * 60 then 60 * 60 else 24 * 60 * 60;
    var timed :=
      if addr.nTime != 0 && (e.nTime == 0 || e.nTime < addr.nTime - interval - nTimePenalty) then
        e.(nTime := if addr.nTime - nTimePenalty > 0 then addr.nTime - nTimePenalty else 0)
      else e;
    timed.(services := timed.services + addr.services)
  }

  /** The address brings news, and the entry may be put into one more new bucket. */
  predicate MayRefer(e: AddrInfo, addr: Address) {
    && addr.nTime != 0 && (e.nTime == 0 || addr.nTime > e.nTime)
    && !e.fInTried && e.nRefCount != NEW_BUCKETS_PER_ADDRESS
  }

  lemma SurvivorsRefl(info: InfoMap)
    ensures Survivors(info, info, NOBODY)
  {
  }

  lemma EntryTimes(addr: Address, source: NetAddr, nTimePenalty: int, e: AddrInfo)
    ensures EntryTimesOk(Aged(NewInfo(addr, source), nTimePenalty))
    ensures EntryTimesOk(e) <==> EntryTimesOk(Ref(e))
    ensures forall pos :: EntryTimesOk(Aged(NewInfo(addr, source), nTimePenalty).(nRandomPos := pos))
  {
  }

  /** Entry e for nId on top of info, as the node has it and as it was before positions
      changed; and the time stamps stay in order. */
  lemma AddedSurvive(info: InfoMap, mid: InfoMap, after: InfoMap, nId: int, e: AddrInfo, f: AddrInfo, victim: int)
    requires nId in mid && (forall i :: i in mid && i != nId <==> i in info && i != nId)
    requires forall i :: i in info && i != nId ==> mid[i] == info[i]
    requires Survivors(mid[nId := e], after, victim) && victim != nId
    requires f == e.(nRandomPos := f.nRandomPos)
    ensures Survivors(info[nId := f], after, victim) && nId in after && after[nId].service == e.service
    ensures EntryTimesOk(e) && (forall i :: i in info ==> EntryTimesOk(info[i])) ==> forall i :: i in after ==> EntryTimesOk(after[i])
  {
  }

  lemma IdsNatural(info: InfoMap, byAddr: map<NetAddr, int>, random: seq<int>, ids: int)
    requires Indexed(info, byAddr, random, ids)
    ensures NOBODY !in info && ids !in info
  {
  }

  lemma BucketSize(info: InfoMap, vNew: seq<set<int>>, b: int)
    requires NewOk(info, vNew) && 0 <= b < |vNew|
    ensures |vNew[b]| <= NEW_BUCKET_SIZE
  {
  }

  /** A known entry about to get one more bucket. */
  lemma BumpKeeps(key: Key, info: InfoMap, byAddr: map<NetAddr, int>, random: seq<int>, ids: int,
                  tried: seq<seq<int>>, vNew: seq<set<int>>, nTried: int, nNew: int, v: int)
    requires v in info && !info[v].fInTried && info[v].nRefCount != NEW_BUCKETS_PER_ADDRESS
    requires Indexed(info, byAddr, random, ids) && TriedOk(key, info, tried) && NewOk(info, vNew)
    requires RefsOk(info, vNew, NOBODY) && RangeOk(info) && CountsOk(info, random, nTried, nNew)
    ensures var info1 := info[v := Ref(info[v])];
            && Indexed(info1, byAddr, random, ids) && TriedOk(key, info1, tried) && NewOk(info1, vNew)
            && RefsOk(info1, vNew, v) && RangeOk(info1) && CountsOk(info1, random, nTried, nNew)
  {
    hide Indexed, TriedOk, TriedIds, NewIds, Homes;
    var info1 := info[v := Ref(info[v])];
    IdsNatural(info, byAddr, random, ids);
    ShapeKeepsIndex(info, info1, byAddr, random, ids);
    SameTried(key, info, info1, tried);
    SameIds(info, info1);
    assert EntryRangeOk(info[v]);
  }

  /** A created entry about to get its first bucket. */
  lemma CreatedKeeps(key: Key, info: InfoMap, byAddr: map<NetAddr, int>, random: seq<int>, ids: int,
                     tried: seq<seq<int>>, vNew: seq<set<int>>, nTried: int, nNew: int, e: AddrInfo)
    requires Indexed(info, byAddr, random, ids) && TriedOk(key, info, tried) && NewOk(info, vNew) && ids >= 0
    requires RefsOk(info, vNew, NOBODY) && RangeOk(info) && CountsOk(info, random, nTried, nNew)
    requires e.service.ip !in byAddr && e.nRandomPos == |random| && !e.fInTried && e.nRefCount == 0
    ensures var info1 := info[ids := Ref(e)];
            && Indexed(info1, byAddr[e.service.ip := ids], random + [ids], ids + 1)
            && TriedOk(key, info1, tried) && NewOk(info1, vNew) && RefsOk(info1, vNew, ids) && RangeOk(info1)
            && CountsOk(info1, random + [ids], nTried, nNew + 1)
    ensures forall b :: 0 <= b < |vNew| ==> ids !in vNew[b]
  {
    hide Indexed, TriedOk, RefsOk, RangeOk, TriedIds, NewIds;
    IdsNatural(info, byAddr, random, ids);
    CreateKeepsIndex(info, byAddr, random, ids, Ref(e));
    CreateKeepsTried(key, info, tried, ids, Ref(e));
    CreateKeepsNew(info, vNew, ids, Ref(e));
    forall b | 0 <= b < |vNew| ensures ids !in vNew[b] {
    }
  }

  function Rotate(n: int, nRnd: int): (b: int)
    ensures 0 <= b < NEW_BUCKET_COUNT
  {
    (n + nRnd) % NEW_BUCKET_COUNT
  }

  function Succeeded(e: AddrInfo, nTime: int): AddrInfo {
    e.(nLastSuccess := nTime, nLastTry := nTime, nTime := nTime, nAttempts := 0)
  }

  function Attempted(e: AddrInfo, nTime: int): AddrInfo {
    e.(nLastTry := nTime, nAttempts := e.nAttempts + 1)
  }

  lemma FindFacts(info: InfoMap, byAddr: map<NetAddr, int>, random: seq<int>, ids: int)
    requires Indexed(info, byAddr, random, ids)
    ensures forall a :: a in byAddr ==> byAddr[a] in info && info[byAddr[a]].service.ip == a
  {
  }

  lemma AlreadyTried(info: InfoMap, nId: int)
    requires RangeOk(info) && nId in info && info[nId].fInTried
    ensures MovedToTried(info, info, nId, NOBODY)
  {
    assert EntryRangeOk(info[nId]);
  }

  /** An entry that is not tried is in some new bucket. */
  lemma HasBucket(info: InfoMap, vNew: seq<set<int>>, nId: int)
    requires RangeOk(info) && RefsOk(info, vNew, NOBODY) && nId in info && !info[nId].fInTried && nId != NOBODY
    ensures !forall b :: 0 <= b < |vNew| ==> nId !in vNew[b]
  {
    assert EntryRangeOk(info[nId]);
    NoHomes(vNew, nId);
  }

  lemma GoodTimes(before: InfoMap, stamped: InfoMap, after: InfoMap, nId: int, nTime: int, evicted: int)
    requires nId in before && stamped == before[nId := Succeeded(before[nId], nTime)]
    requires MovedToTried(stamped, after, nId, evicted)
    ensures (forall i :: i in before ==> EntryTimesOk(before[i])) ==>
              ((forall i :: i in after ==> EntryTimesOk(after[i])) <==> nTime > 0)
  {
    if forall i :: i in before ==> EntryTimesOk(before[i]) {
      forall i | i in after && i != nId ensures EntryTimesOk(after[i]) {
        assert i in stamped && i in before && EntryTimesOk(before[i]);
      }
    }
  }

  lemma PositionRefl(info: InfoMap)
    ensures SameButPosition(info, info)
  {
  }

  lemma RandomEntries(info: InfoMap, byAddr: map<NetAddr, int>, random: seq<int>, ids: int)
    requires Indexed(info, byAddr, random, ids)
    ensures forall j :: 0 <= j < |random| ==> random[j] in info
  {
  }

  lemma DistinctAddresses(info: InfoMap, byAddr: map<NetAddr, int>, random: seq<int>, ids: int, k: int, l: int)
    requires Indexed(info, byAddr, random, ids) && 0 <= k < l < |random|
    ensures random[k] in info && random[l] in info
    ensures info[random[k]].service.ip != info[random[l]].service.ip
  {
    var i, j := random[k], random[l];
    assert info[i].nRandomPos == k && info[j].nRandomPos == l;
    assert byAddr[info[i].service.ip] == i && byAddr[info[j].service.ip] == j;
  }

  ghost predicate Reordered(s: seq<int>, t: seq<int>) {
    && |s| == |t| && (Distinct(s) ==> Distinct(t))
    && (forall i :: i in s ==> i in t) && (forall i :: i in t ==> i in s)
  }

  /** How many positions SelectTried looks at. */
  function Inspected(bucket: seq<int>): nat {
    if |bucket| < TRIED_ENTRIES_INSPECT_ON_EVICT then |bucket| else TRIED_ENTRIES_INSPECT_ON_EVICT
  }

  /** Among the first n entries the one at position at succeeded least recently, and it is the
      first such. */
  ghost predicate OldestOf(info: InfoMap, bucket: seq<int>, n: nat, at: int) {
    && n <= |bucket| && 0 <= at < n && (forall l :: 0 <= l < n ==> bucket[l] in info)
    && (forall l :: 0 <= l < n ==> info[bucket[at]].nLastSuccess <= info[bucket[l]].nLastSuccess)
    && (forall l :: 0 <= l < at ==> info[bucket[at]].nLastSuccess < info[bucket[l]].nLastSuccess)
  }

  /** Each position is drawn from its own place onwards. */
  predicate DrawsOk(draws: seq<int>, n: nat) {
    |draws| <= n && forall i :: 0 <= i < |draws| ==> i <= draws[i] < n
  }

  /** The bucket after the first k exchanges. */
  function Shuffled(bucket: seq<int>, draws: seq<int>, k: nat): (r: seq<int>)
    requires DrawsOk(draws, |bucket|) && k <= |draws|
    ensures |r| == |bucket|
  {
    if k == 0 then bucket else
      var t := Shuffled(bucket, draws, k - 1);
      t[draws[k - 1] := t[k - 1]][k - 1 := t[draws[k - 1]]]
  }

  lemma ShuffleNone(bucket: seq<int>)
    ensures Shuffled(bucket, [], 0) == bucket
  {
  }

  lemma ShuffleOnce(bucket: seq<int>, draws: seq<int>, p: int)
    requires DrawsOk(draws, |bucket|) && |draws| <= p < |bucket|
    ensures DrawsOk(draws + [p], |bucket|)
    ensures var t := Shuffled(bucket, draws, |draws|);
            Shuffled(bucket, draws + [p], |draws| + 1) == t[p := t[|draws|]][|draws| := t[p]]
  {
    ShufflePrefix(bucket, draws, p, |draws|);
  }

  lemma {:induction false} ShufflePrefix(bucket: seq<int>, draws: seq<int>, p: int, k: nat)
    requires DrawsOk(draws, |bucket|) && |draws| <= p < |bucket| && k <= |draws|
    ensures Shuffled(bucket, draws + [p], k) == Shuffled(bucket, draws, k)
  {
    if k > 0 {
      ShufflePrefix(bucket, draws, p, k - 1);
    }
  }

  /** What exchange at drew stays at position at. */
  lemma {:induction false} DrawnEntryStays(bucket: seq<int>, draws: seq<int>, at: int, k: nat)
    requires DrawsOk(draws, |bucket|) && 0 <= at < k <= |draws|
    ensures Shuffled(bucket, draws, k)[at] == Shuffled(bucket, draws, at)[draws[at]]
  {
    if at < k - 1 {
      DrawnEntryStays(bucket, draws, at, k - 1);
    }
  }

  lemma SameEntryIff(before: seq<int>, after: seq<int>, p: int, q: int)
    requires Reordered(before, after) && Distinct(before) && 0 <= p < |after| && 0 <= q < |after|
    ensures after[p] == after[q] <==> p == q
  {
  }

  lemma ReorderedRefl(s: seq<int>)
    ensures Reordered(s, s)
  {
  }

  lemma SwapReorders(s: seq<int>, t: seq<int>, i: int, j: int)
    requires Reordered(s, t) && 0 <= i < |t| && 0 <= j < |t|
    ensures Reordered(s, t[j := t[i]][i := t[j]])
    ensures forall x :: x in t[j := t[i]][i := t[j]] ==> x in t
  {
    var u := t[j := t[i]][i := t[j]];
    forall x | x in t ensures x in u {
      var k :| 0 <= k < |t| && t[k] == x;
      assert u[k] == x || u[i] == x || u[j] == x;
    }
    forall x | x in u ensures x in t {
    }
  }

  lemma ReorderKeepsTried(key: Key, info: InfoMap, tried: seq<seq<int>>, b: int, s: seq<int>)
    requires TriedOk(key, info, tried) && 0 <= b < |tried| && Reordered(tried[b], s)
    ensures TriedOk(key, info, tried[b := s])
  {
    hide Distinct;
  }

  lemma TriedShape(key: Key, info: InfoMap, tried: seq<seq<int>>, b: int)
    requires TriedOk(key, info, tried) && 0 <= b < TRIED_BUCKET_COUNT
    ensures |tried| == TRIED_BUCKET_COUNT && |tried[b]| <= TRIED_BUCKET_SIZE && Distinct(tried[b])
    ensures forall i :: i in tried[b] ==> i in info
  {
  }

  lemma TriedMember(key: Key, info: InfoMap, tried: seq<seq<int>>, b: int, pos: int)
    requires TriedOk(key, info, tried) && 0 <= b < |tried| && 0 <= pos < |tried[b]|
    ensures tried[b][pos] in info && info[tried[b][pos]].fInTried
  {
    hide Distinct;
    var i := tried[b][pos];
    assert i in tried[b];
  }

  lemma NewShape(info: InfoMap, vNew: seq<set<int>>)
    requires NewOk(info, vNew)
    ensures |vNew| == NEW_BUCKET_COUNT
  {
  }

  lemma SameTried(key: Key, a: InfoMap, b: InfoMap, tried: seq<seq<int>>)
    requires TriedOk(key, a, tried)
    requires (forall i :: i in a ==> i in b) && (forall i :: i in b ==> i in a)
    requires forall i :: i in a ==> a[i].service == b[i].service && a[i].fInTried == b[i].fInTried
    ensures TriedOk(key, b, tried)
  {
    hide Distinct;
  }

  lemma OtherRanges(info: InfoMap, v: int)
    requires RangeOk(info)
    ensures forall i :: i in info && i != v ==> EntryRangeOk(info[i])
  {
  }

  lemma EntryIn(info: InfoMap, byAddr: map<NetAddr, int>, random: seq<int>, ids: int, vNew: seq<set<int>>, v: int)
    requires Indexed(info, byAddr, random, ids) && v in info && RefsOk(info, vNew, NOBODY)
    ensures v >= 0 && info[v].nRefCount == |Homes(vNew, v)| && NOBODY !in info
  {
    hide Homes;
  }

  lemma BucketEntries(info: InfoMap, byAddr: map<NetAddr, int>, random: seq<int>, ids: int, vNew: seq<set<int>>, b: int)
    requires Indexed(info, byAddr, random, ids) && NewOk(info, vNew) && 0 <= b < |vNew|
    ensures forall v :: v in vNew[b] ==> 0 <= v < ids && v in info
  {
    forall v | v in vNew[b] ensures 0 <= v < ids && v in info {
      assert v in info;
    }
  }

  lemma RoomAtOrigin(info: InfoMap, news: seq<set<int>>, cleared: seq<set<int>>, v: int, b: int)
    requires NewOk(info, news)
    requires 0 <= b < |news| && |cleared| == |news| && v in news[b] && cleared[b] == news[b] - {v}
    ensures |cleared[b]| < NEW_BUCKET_SIZE
  {
  }

  /** nId has become tried; evicted, if somebody, has become new; nothing else has changed. */
  ghost predicate MovedToTried(a: InfoMap, b: InfoMap, nId: int, evicted: int) {
    && nId in a && nId in b && b[nId] == a[nId].(nRefCount := 0, fInTried := true)
    && (forall i :: i in a ==> i in b) && (forall i :: i in b ==> i in a)
    && (evicted != NOBODY ==> evicted in a && evicted != nId && a[evicted].fInTried && b[evicted] == Evicted(a[evicted]))
    && (forall i :: i in a && i != nId && (i != evicted || evicted == NOBODY) ==> b[i] == a[i])
  }

  lemma MovedIndex(info: InfoMap, cleared: InfoMap, after: InfoMap, nId: int, evicted: int)
    requires nId in info && cleared == info[nId := info[nId].(nRefCount := 0)] && NOBODY !in info
    requires evicted == NOBODY ==> after == cleared[nId := cleared[nId].(fInTried := true)]
    requires evicted != NOBODY ==>
               && evicted in cleared && evicted != nId && cleared[evicted].fInTried
               && after == cleared[evicted := Evicted(cleared[evicted])][nId := cleared[nId].(fInTried := true)]
    ensures MovedToTried(info, after, nId, evicted) && SameIndex(info, after)
  {
  }

  ghost predicate EntryTimesOk(e: AddrInfo) {
    e.nLastTry >= 0 && e.nLastSuccess >= 0 && (e.fInTried ==> e.nLastSuccess != 0)
  }

  /** All entries but v are still there, with nothing but positions changed; v may be gone or
      have lost a reference. */
  ghost predicate Survivors(a: InfoMap, b: InfoMap, v: int) {
    && (forall i :: i in b ==> i in a)
    && (forall i :: i in a && i != v ==> i in b && b[i] == a[i].(nRandomPos := b[i].nRandomPos))
    && (v in a && v in b ==> b[v] == a[v].(nRandomPos := b[v].nRandomPos, nRefCount := b[v].nRefCount))
  }

  lemma BucketEntry(info: InfoMap, vNew: seq<set<int>>, b: int, v: int)
    requires NewOk(info, vNew) && 0 <= b < |vNew| && v in vNew[b]
    ensures v in info && !info[v].fInTried
  {
  }

  lemma UnrefRange(info: InfoMap, v: int)
    requires RangeOk(info) && v in info && !info[v].fInTried
    ensures info[v].nRefCount >= 1
    ensures RangeOk(info - {v})
    ensures info[v].nRefCount > 1 ==> RangeOk(info[v := Unref(info[v])])
    ensures info[v := Unref(info[v])] - {v} == info - {v}
  {
  }

  lemma PositionInRange(info: InfoMap, byAddr: map<NetAddr, int>, random: seq<int>, ids: int, v: int)
    requires Indexed(info, byAddr, random, ids) && v in info
    ensures 0 <= info[v].nRandomPos < |random| && random[info[v].nRandomPos] == v
  {
  }

  lemma LastPosition(info: InfoMap, byAddr: map<NetAddr, int>, random: seq<int>, ids: int, v: int)
    requires Indexed(info, byAddr, random, ids) && |random| > 0 && random[|random| - 1] == v
    ensures v in info && info[v].nRandomPos == |random| - 1
  {
  }

  lemma DeleteCounts(info: InfoMap, v: int)
    requires v in info && !info[v].fInTried
    ensures TriedIds(info - {v}) == TriedIds(info) && |NewIds(info - {v})| == |NewIds(info)| - 1
  {
    assert TriedIds(info - {v}) == TriedIds(info);
    assert NewIds(info - {v}) == NewIds(info) - {v};
    assert v in NewIds(info);
  }
}
