/** The debug consistency check of the address manager: what it accepts, for every state, and
    that it accepts every state the operations keep, up to its conditions on time stamps.
    (src/addrman.cpp, Check_) */
module AddrCheck {
  import opened Basics
  import opened AddrTables
  import A = AddrMan

  // ---------- what is checked ----------

  /** An address that is not in the index reads as id 0. */
  ghost predicate EntryOk(n: int, info: AddrInfo, mapAddr: map<NetAddr, int>, vRandom: seq<int>) {
    && EntryRangeOk(info) && A.EntryTimesOk(info)
    && n == (if info.service.ip in mapAddr then mapAddr[info.service.ip] else 0)
    && 0 <= info.nRandomPos < |vRandom| && vRandom[info.nRandomPos] == n
  }

  /** The first b buckets one after the other. */
  ghost function Flat(vvTried: seq<seq<int>>, b: nat): seq<int>
    requires b <= |vvTried|
  {
    if b == 0 then [] else Flat(vvTried, b - 1) + vvTried[b - 1]
  }

  /** The sequence lists every element of the set exactly once. */
  ghost predicate Lists(q: seq<int>, s: set<int>) {
    Distinct(q) && forall i :: i in q <==> i in s
  }

  /** Every counted id is in as many buckets as it counts, and no other id is in any. */
  ghost predicate Counted(vvNew: seq<set<int>>, counts: map<int, int>) {
    forall i :: |Homes(vvNew, i)| == if i in counts then counts[i] else 0
  }

  ghost function RefCounts(info: InfoMap): map<int, int> {
    map i | i in info && !info[i].fInTried :: info[i].nRefCount
  }

  ghost predicate Accepted(am: A.AddrMan)
    reads am
  {
    && CountsOk(am.mapInfo, am.vRandom, am.nTried, am.nNew)
    && (forall n :: n in am.mapInfo ==> EntryOk(n, am.mapInfo[n], am.mapAddr, am.vRandom))
    && Lists(Flat(am.vvTried, |am.vvTried|), TriedIds(am.mapInfo))
    && Counted(am.vvNew, RefCounts(am.mapInfo))
  }

  // ---------- the check ----------

  /** Zero exactly if the counters are right, every entry is in order, the tried buckets list
      every tried id once and nothing else, and every new id is in as many new buckets as it
      counts, and nothing else is. */
  method Check(am: A.AddrMan) returns (code: int)
    ensures code == 0 <==> Accepted(am)
  {
    hide Flat, Lists, Counted, EntryOk, TriedIds, NewIds;
    if |am.vRandom| != am.nTried + am.nNew {
      return -7;
    }
    var setTried: set<int>, mapNew: map<int, int>;
    code, setTried, mapNew := CheckEntries(am);
    if code != 0 {
      return;
    }
    NewIdsAre(am.mapInfo, mapNew);
    if |setTried| != am.nTried {
      return -9;
    }
    if |mapNew| != am.nNew {
      return -10;
    }
    var missing, tried := EraseTried(am.vvTried, setTried);
    if missing {
      return -11;
    }
    CountsPositive(am);
    var counts;
    missing, counts := EraseNew(am.vvNew, mapNew);
    if missing {
      return -12;
    }
    if tried != {} {
      return -13;
    }
    if counts != map[] {
      return -15;
    }
    return 0;
  }

  /** The elements of a set; the order does not matter for what is checked. */
  method Walk(s: set<int>) returns (q: seq<int>)
    ensures Lists(q, s)
  {
    q := [];
    var rest := s;
    while rest != {}
      invariant forall x :: x in s <==> x in rest || x in q
      invariant forall i :: 0 <= i < |q| ==> q[i] !in rest
      invariant Distinct(q)
      decreases |rest|
    {
      Inhabited(rest);
      var x :| x in rest;
      q, rest := q + [x], rest - {x};
    }
  }

  method CheckEntries(am: A.AddrMan) returns (code: int, setTried: set<int>, mapNew: map<int, int>)
    ensures code == 0 <==> forall n :: n in am.mapInfo ==> EntryOk(n, am.mapInfo[n], am.mapAddr, am.vRandom)
    ensures code == 0 ==> setTried == TriedIds(am.mapInfo) && mapNew == RefCounts(am.mapInfo)
  {
    hide EntryOk;
    setTried, mapNew := {}, map[];
    var order := Walk(am.mapInfo.Keys);
    for k := 0 to |order|
      invariant forall i :: i in setTried <==> i in order[..k] && i in am.mapInfo && am.mapInfo[i].fInTried
      invariant forall i :: i in mapNew <==> i in order[..k] && i in am.mapInfo && !am.mapInfo[i].fInTried
      invariant forall i :: i in mapNew ==> mapNew[i] == am.mapInfo[i].nRefCount
      invariant forall i :: i in order[..k] ==> i in am.mapInfo && EntryOk(i, am.mapInfo[i], am.mapAddr, am.vRandom)
    {
      var n := order[k];
      assert n in order && order[..k + 1] == order[..k] + [n];
      var info := am.mapInfo[n];
      code := CheckEntry(n, info, am.mapAddr, am.vRandom);
      if code != 0 {
        return;
      }
      if info.fInTried {
        setTried := setTried + {n};
      } else {
        mapNew := mapNew[n := info.nRefCount];
      }
    }
    assert order[..|order|] == order;
    TriedIdsAre(am.mapInfo, setTried);
    RefCountsAre(am.mapInfo, mapNew);
    code := 0;
  }

  /** The checks on one entry, in the order of the source. */
  method CheckEntry(n: int, info: AddrInfo, mapAddr: map<NetAddr, int>, vRandom: seq<int>) returns (code: int)
    ensures code == 0 <==> EntryOk(n, info, mapAddr, vRandom)
  {
    if info.fInTried {
      if info.nLastSuccess == 0 { return -1; }
      if info.nRefCount != 0 { return -2; }
    } else {
      if info.nRefCount < 0 || info.nRefCount > NEW_BUCKETS_PER_ADDRESS { return -3; }
      if info.nRefCount == 0 { return -4; }
    }
    if (if info.service.ip in mapAddr then mapAddr[info.service.ip] else 0) != n { return -5; }
    if info.nRandomPos < 0 || info.nRandomPos >= |vRandom| || vRandom[info.nRandomPos] != n { return -14; }
    if info.nLastTry < 0 { return -6; }
    if info.nLastSuccess < 0 { return -8; }
    return 0;
  }

  lemma TriedIdsAre(info: InfoMap, s: set<int>)
    requires forall i :: i in s <==> i in info && info[i].fInTried
    ensures s == TriedIds(info)
  {
    forall i ensures i in s <==> i in TriedIds(info) {
    }
  }

  lemma RefCountsAre(info: InfoMap, m: map<int, int>)
    requires forall i :: i in m <==> i in info && !info[i].fInTried
    requires forall i :: i in m ==> m[i] == info[i].nRefCount
    ensures m == RefCounts(info)
  {
    var r := RefCounts(info);
    forall i ensures i in m.Keys <==> i in r.Keys {
    }
    assert m.Keys == r.Keys;
    forall i | i in m ensures m[i] == r[i] {
    }
  }

  lemma NewIdsAre(info: InfoMap, m: map<int, int>)
    requires m == RefCounts(info)
    ensures |m| == |NewIds(info)|
  {
    forall i ensures i in m.Keys <==> i in NewIds(info) {
    }
    assert m.Keys == NewIds(info);
    assert |m| == |m.Keys|;
  }

  lemma CountsPositive(am: A.AddrMan)
    requires forall n :: n in am.mapInfo ==> EntryOk(n, am.mapInfo[n], am.mapAddr, am.vRandom)
    ensures forall i :: i in RefCounts(am.mapInfo) ==> RefCounts(am.mapInfo)[i] >= 1
  {
  }

  // ---------- the tried buckets ----------

  lemma {:induction false} FlatGrows(vvTried: seq<seq<int>>, b: nat, c: nat)
    requires b <= c <= |vvTried|
    ensures Flat(vvTried, b) <= Flat(vvTried, c)
    decreases c
  {
    if b < c {
      FlatGrows(vvTried, b, c - 1);
    }
  }

  /** Crosses off the ids found in the tried buckets. */
  method EraseTried(vvTried: seq<seq<int>>, setTried: set<int>) returns (missing: bool, rest: set<int>)
    ensures !missing && rest == {} <==> Lists(Flat(vvTried, |vvTried|), setTried)
  {
    hide Lists, Flat;
    rest := setTried;
    NothingCrossed(vvTried, setTried);
    for b := 0 to |vvTried|
      invariant Crossed(Flat(vvTried, b), setTried, rest)
    {
      missing, rest := EraseBucket(Flat(vvTried, b), vvTried[b], setTried, rest);
      FlatStep(vvTried, b);
      if missing {
        MissingMeansNot(vvTried, b + 1, setTried);
        return;
      }
    }
    missing := false;
    AllCrossed(Flat(vvTried, |vvTried|), setTried, rest);
  }

  /** So far each listed id was new and in the set; rest is what is still to come. */
  ghost predicate Crossed(q: seq<int>, s: set<int>, rest: set<int>) {
    && Distinct(q) && (forall i :: i in q ==> i in s)
    && forall i :: i in rest <==> i in s && i !in q
  }

  lemma NothingCrossed(vvTried: seq<seq<int>>, s: set<int>)
    ensures Crossed(Flat(vvTried, 0), s, s)
  {
  }

  lemma FlatStep(vvTried: seq<seq<int>>, b: nat)
    requires b < |vvTried|
    ensures Flat(vvTried, b + 1) == Flat(vvTried, b) + vvTried[b]
  {
  }

  lemma AllCrossed(q: seq<int>, s: set<int>, rest: set<int>)
    requires Crossed(q, s, rest)
    ensures rest == {} <==> Lists(q, s)
  {
    if Lists(q, s) {
      EmptySet(rest);
    }
  }

  /** Listed twice, or listed without being in the set. */
  ghost predicate Wrong(q: seq<int>, s: set<int>) {
    !Distinct(q) || exists i :: i in q && i !in s
  }

  lemma MissingMeansNot(vvTried: seq<seq<int>>, b: nat, s: set<int>)
    requires b <= |vvTried| && Wrong(Flat(vvTried, b), s)
    ensures !Lists(Flat(vvTried, |vvTried|), s)
  {
    hide Flat;
    FlatGrows(vvTried, b, |vvTried|);
    PrefixWrong(Flat(vvTried, b), Flat(vvTried, |vvTried|), s);
  }

  lemma PrefixWrong(p: seq<int>, q: seq<int>, s: set<int>)
    requires p <= q && Wrong(p, s)
    ensures Wrong(q, s) && !Lists(q, s)
  {
    if Distinct(p) {
      var i :| i in p && i !in s;
      var k :| 0 <= k < |p| && p[k] == i;
      assert q[k] == i;
    } else {
      var a, b :| 0 <= a < b < |p| && p[a] == p[b];
      assert q[a] == q[b];
    }
  }

  method EraseBucket(ghost before: seq<int>, bucket: seq<int>, ghost s: set<int>, left: set<int>)
    returns (missing: bool, rest: set<int>)
    requires Crossed(before, s, left)
    ensures missing ==> Wrong(before + bucket, s)
    ensures !missing ==> Crossed(before + bucket, s, rest)
  {
    hide Crossed, Wrong;
    rest := left;
    assert before + bucket[..0] == before;
    for p := 0 to |bucket|
      invariant Crossed(before + bucket[..p], s, rest)
    {
      var i := bucket[p];
      assert before + bucket[..p + 1] == before + bucket[..p] + [i];
      CrossOne(before + bucket[..p], s, rest, i);
      if i !in rest {
        PrefixWrong(before + bucket[..p + 1], before + bucket, s);
        return true, rest;
      }
      rest := rest - {i};
    }
    assert bucket[..|bucket|] == bucket;
    missing := false;
  }

  lemma CrossOne(q: seq<int>, s: set<int>, rest: set<int>, i: int)
    requires Crossed(q, s, rest)
    ensures i in rest ==> Crossed(q + [i], s, rest - {i})
    ensures i !in rest ==> Wrong(q + [i], s)
  {
    var r := q + [i];
    assert r[|q|] == i;
    if i !in rest && i in s {
      var k :| 0 <= k < |q| && q[k] == i;
      assert r[k] == r[|q|];
    }
  }

  // ---------- the new buckets ----------

  /** How often an id was met in the first b buckets and, in the next one, among seen. */
  ghost function Met(vvNew: seq<set<int>>, b: nat, seen: seq<int>, i: int): int
    requires b <= |vvNew|
  {
    |Homes(vvNew[..b], i)| + if i in seen then 1 else 0
  }

  /** No id was met more often than it counts; rest holds what is left of the counts. */
  ghost predicate CountedDown(vvNew: seq<set<int>>, b: nat, seen: seq<int>, counts: map<int, int>, rest: map<int, int>)
    requires b <= |vvNew|
  {
    && (forall i :: Met(vvNew, b, seen, i) <= if i in counts then counts[i] else 0)
    && (forall i :: i in rest <==> i in counts && Met(vvNew, b, seen, i) < counts[i])
    && (forall i :: i in rest ==> rest[i] == counts[i] - Met(vvNew, b, seen, i))
  }

  /** Lowers the count of every id found in a new bucket, dropping ids whose count is used up. */
  method EraseNew(vvNew: seq<set<int>>, mapNew: map<int, int>) returns (missing: bool, rest: map<int, int>)
    requires forall i :: i in mapNew ==> mapNew[i] >= 1
    ensures !missing && rest == map[] <==> Counted(vvNew, mapNew)
  {
    hide CountedDown, Counted;
    rest := mapNew;
    NothingMet(vvNew, mapNew);
    for b := 0 to |vvNew|
      invariant CountedDown(vvNew, b, [], mapNew, rest)
    {
      missing, rest := EraseNewBucket(vvNew, b, mapNew, rest);
      if missing {
        return;
      }
    }
    missing := false;
    AllMet(vvNew, mapNew, rest);
  }

  lemma NothingMet(vvNew: seq<set<int>>, counts: map<int, int>)
    requires forall i :: i in counts ==> counts[i] >= 1
    ensures CountedDown(vvNew, 0, [], counts, counts)
  {
    forall i ensures Met(vvNew, 0, [], i) == 0 {
      HomesSoFar(vvNew, 0, i);
    }
    hide Met;
  }

  lemma AllMet(vvNew: seq<set<int>>, counts: map<int, int>, rest: map<int, int>)
    requires CountedDown(vvNew, |vvNew|, [], counts, rest)
    ensures rest == map[] <==> Counted(vvNew, counts)
  {
    forall i ensures Met(vvNew, |vvNew|, [], i) == |Homes(vvNew, i)| {
      HomesSoFar(vvNew, |vvNew|, i);
    }
    hide Met, Homes;
    if Counted(vvNew, counts) {
      forall i ensures i !in rest.Keys {
      }
      EmptySet(rest.Keys);
      assert |rest| == |rest.Keys|;
    }
  }

  method EraseNewBucket(vvNew: seq<set<int>>, b: nat, mapNew: map<int, int>, left: map<int, int>)
    returns (missing: bool, rest: map<int, int>)
    requires b < |vvNew| && CountedDown(vvNew, b, [], mapNew, left)
    ensures missing ==> !Counted(vvNew, mapNew)
    ensures !missing ==> CountedDown(vvNew, b + 1, [], mapNew, rest)
  {
    hide CountedDown, Counted, Lists;
    rest := left;
    var order := Walk(vvNew[b]);
    assert order[..0] == [];
    for k := 0 to |order|
      invariant CountedDown(vvNew, b, order[..k], mapNew, rest)
    {
      var i := order[k];
      assert order[..k + 1] == order[..k] + [i];
      NextInBucket(vvNew, b, order, k);
      MeetOne(vvNew, b, order[..k], mapNew, rest, i);
      if i !in rest {
        MetTooOften(vvNew, b, order[..k], mapNew, i);
        return true, rest;
      }
      rest := if rest[i] - 1 == 0 then rest - {i} else rest[i := rest[i] - 1];
    }
    assert order[..|order|] == order;
    BucketDone(vvNew, b, order, mapNew, rest);
    missing := false;
  }

  lemma NextInBucket(vvNew: seq<set<int>>, b: nat, order: seq<int>, k: nat)
    requires b < |vvNew| && k < |order| && Lists(order, vvNew[b])
    ensures order[k] in vvNew[b] && order[k] !in order[..k]
  {
    assert order[k] in order;
  }

  lemma MeetOne(vvNew: seq<set<int>>, b: nat, seen: seq<int>, counts: map<int, int>, rest: map<int, int>, i: int)
    requires b < |vvNew| && CountedDown(vvNew, b, seen, counts, rest) && i !in seen
    ensures i !in rest ==> Met(vvNew, b, seen, i) >= if i in counts then counts[i] else 0
    ensures i in rest ==> CountedDown(vvNew, b, seen + [i], counts, if rest[i] - 1 == 0 then rest - {i} else rest[i := rest[i] - 1])
  {
    forall j ensures Met(vvNew, b, seen + [i], j) == Met(vvNew, b, seen, j) + if j == i then 1 else 0 {
      assert j in seen + [i] <==> j in seen || j == i;
    }
    hide Met;
  }

  lemma MetTooOften(vvNew: seq<set<int>>, b: nat, seen: seq<int>, counts: map<int, int>, i: int)
    requires b < |vvNew| && i in vvNew[b] && i !in seen
    requires Met(vvNew, b, seen, i) >= if i in counts then counts[i] else 0
    ensures !Counted(vvNew, counts)
  {
    hide Homes;
    OneBucketOn(vvNew, b, i);
    HomesSoFar(vvNew, b + 1, i);
  }

  lemma BucketDone(vvNew: seq<set<int>>, b: nat, order: seq<int>, counts: map<int, int>, rest: map<int, int>)
    requires b < |vvNew| && Lists(order, vvNew[b]) && CountedDown(vvNew, b, order, counts, rest)
    ensures CountedDown(vvNew, b + 1, [], counts, rest)
  {
    forall i ensures Met(vvNew, b + 1, [], i) == Met(vvNew, b, order, i) {
      OneBucketOn(vvNew, b, i);
    }
    hide Met;
  }

  lemma OneBucketOn(vNew: seq<set<int>>, b: int, i: int)
    requires 0 <= b < |vNew|
    ensures |Homes(vNew[..b + 1], i)| == |Homes(vNew[..b], i)| + (if i in vNew[b] then 1 else 0)
  {
    if i in vNew[b] {
      assert Homes(vNew[..b + 1], i) == Homes(vNew[..b], i) + {b};
    } else {
      assert Homes(vNew[..b + 1], i) == Homes(vNew[..b], i);
    }
  }

  lemma HomesSoFar(vNew: seq<set<int>>, b: int, i: int)
    requires 0 <= b <= |vNew|
    ensures |Homes(vNew[..b], i)| <= |Homes(vNew, i)|
    ensures b == |vNew| ==> Homes(vNew[..b], i) == Homes(vNew, i)
    ensures b == 0 ==> Homes(vNew[..b], i) == {}
  {
    EmptySet(Homes(vNew, i) - Homes(vNew, i));
    Subset(Homes(vNew[..b], i), Homes(vNew, i));
    if b == |vNew| {
      assert vNew[..b] == vNew;
    }
  }

  lemma Subset(s: set<int>, t: set<int>)
    requires forall x :: x in s ==> x in t
    ensures |s| <= |t|
  {
    forall x ensures x in t <==> x in s + (t - s) {
    }
    assert t == s + (t - s);
  }

  // ---------- the states the operations keep ----------

  lemma {:induction false} FlatIs(key: Key, info: InfoMap, vvTried: seq<seq<int>>, b: nat)
    requires TriedOk(key, info, vvTried) && b <= |vvTried|
    ensures Distinct(Flat(vvTried, b))
    ensures forall i :: i in Flat(vvTried, b) <==> i in info && info[i].fInTried && key.TriedBucket(info[i]) < b
  {
    if b > 0 {
      FlatIs(key, info, vvTried, b - 1);
      forall p, q | 0 <= p < q < |Flat(vvTried, b)| ensures Flat(vvTried, b)[p] != Flat(vvTried, b)[q] {
        var n := |Flat(vvTried, b - 1)|;
        if p < n <= q {
          assert Flat(vvTried, b)[p] in Flat(vvTried, b - 1) && Flat(vvTried, b)[q] in vvTried[b - 1];
        }
      }
    }
  }

  /** Every state the operations keep passes, exactly if its time stamps are in order. */
  lemma ValidIsAccepted(am: A.AddrMan)
    requires am.Valid()
    ensures Accepted(am) <==> am.TimesOk()
  {
    hide Flat, Homes;
    FlatIs(am.key, am.mapInfo, am.vvTried, |am.vvTried|);
    ValidIsCounted(am.mapInfo, am.vvNew);
    assert forall i :: i in am.mapInfo ==> EntryRangeOk(am.mapInfo[i]);
  }

  lemma ValidIsCounted(info: InfoMap, vvNew: seq<set<int>>)
    requires NewOk(info, vvNew) && RefsOk(info, vvNew, NOBODY) && NOBODY !in info
    ensures Counted(vvNew, RefCounts(info))
  {
    forall i ensures |Homes(vvNew, i)| == if i in RefCounts(info) then RefCounts(info)[i] else 0 {
      if i !in RefCounts(info) {
        NoHomes(vvNew, i);
      }
    }
  }
}
