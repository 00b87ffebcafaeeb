/** The miner's sieve: for every multiplier of a fixed factor it marks the prime chains in
    which some small prime divides a member, and hands out the multipliers that remain.
    (src/prime.h, CSieveOfEratosthenes; src/prime.cpp, Weave) */
module Sieve {
  import opened Basics
  import opened Primes
  import Target

  datatype ChainType = BiTwin | Cunningham1 | Cunningham2

  const MAX_SIEVE_SIZE := 1_000_000

  /** Member k of a chain over origin factor * m: delta is -1 for the first kind, +1 for the second. */
  function Member(factor: int, m: int, k: nat, delta: int): int {
    factor * Pow2(k) * m + delta
  }

  /** Members of a BiTwin chain, interleaved: -1, +1, -1, +1, ... */
  function BiTwinMember(factor: int, m: int, i: nat): int {
    Member(factor, m, i / 2, if i % 2 == 0 then -1 else 1)
  }

  ghost predicate Congruent(a: int, b: int, p: int)
    requires p > 0
  {
    Divides(p, a - b)
  }

  ghost predicate Hits(factor: int, p: int, m: int, delta: int, n: nat)
    requires p > 0
  {
    exists k: nat :: k < n && Divides(p, Member(factor, m, k, delta))
  }

  ghost predicate HitsBiTwin(factor: int, p: int, m: int, n: nat)
    requires p > 0
  {
    exists i: nat :: i < n && Divides(p, BiTwinMember(factor, m, i))
  }

  // ---------- solving for the multipliers a prime divides ----------

  lemma InverseTimes(a: int, x: int, p: int, c: int)
    requires p > 0 && IsInverse(a, x, p)
    ensures Divides(p, a * x * c - c)
  {
    assert a * x * c - c == (a * x - 1) * c;
    DividesProduct(p, a * x - 1, c);
  }

  /** The solved multiplier: p divides a * m + delta exactly for m congruent to it. */
  lemma Solved(a: int, x: int, p: int, delta: int, m: int)
    requires p > 0 && IsInverse(a, x, p)
    ensures var s := (x * (p - delta)) % p;
            Divides(p, a * m + delta) <==> Divides(p, m - s)
  {
    hide Divides, IsInverse;
    var s, q := (x * (p - delta)) % p, (x * (p - delta)) / p;
    SolvedItself(a, x, p, delta, s, q);
    assert a * m + delta == (a * s + delta) + a * (m - s);
    DividesSum(p, a * s + delta, a * (m - s));
    if Divides(p, m - s) {
      DividesProduct(p, m - s, a);
      assert (m - s) * a == a * (m - s);
    }
    if Divides(p, a * (m - s)) {
      DividesProduct(p, a * (m - s), x);
      InverseTimes(a, x, p, m - s);
      var t := a * x * (m - s) - (m - s);
      assert a * (m - s) * x == t + (m - s);
      DividesSum(p, t, m - s);
    }
  }

  lemma SolvedItself(a: int, x: int, p: int, delta: int, s: int, q: int)
    requires p > 0 && IsInverse(a, x, p) && x * (p - delta) == p * q + s
    ensures Divides(p, a * s + delta)
  {
    hide Divides, IsInverse;
    InverseTimes(a, x, p, p - delta);
    var t := a * x * (p - delta) - (p - delta);
    assert a * s + delta == t + p * (1 - a * q) by {
      assert a * s == a * (x * (p - delta)) - a * (p * q);
      assert a * (x * (p - delta)) == a * x * (p - delta);
      assert a * (p * q) == p * (a * q);
      assert p * (1 - a * q) == p - p * (a * q);
    }
    IsMultiple(p, 1 - a * q, p * (1 - a * q));
    DividesSum(p, t, p * (1 - a * q));
  }

  /** The inverse for the next pair of members: both grow by a factor of two. */
  lemma NextInverse(a: int, x: int, half: int, p: int)
    requires p > 0 && IsInverse(a, x, p) && IsInverse(2, half, p)
    ensures IsInverse(a * 2, x * half, p)
  {
    InverseTimes(a, x, p, 2 * half);
    var t := a * x * (2 * half) - 2 * half;
    assert a * 2 * (x * half) == a * x * (2 * half);
    assert a * 2 * (x * half) - 1 == t + (2 * half - 1);
    DividesSum(p, t, 2 * half - 1);
  }

  /** A prime factor of the fixed factor divides no member. */
  lemma FactorDividesNoMember(factor: int, p: int, m: int, k: nat, delta: int)
    requires p >= 2 && Divides(p, factor) && (delta == 1 || delta == -1)
    ensures !Divides(p, Member(factor, m, k, delta))
  {
    DividesProduct(p, factor, Pow2(k) * m);
    assert factor * (Pow2(k) * m) == factor * Pow2(k) * m;
    DividesSum(p, factor * Pow2(k) * m, delta);
    if delta == 1 {
      assert 1 % p == 1;
    } else {
      assert -1 == p * (-1) + (p - 1);
      BetweenMultiples(p, -1, -1);
    }
  }

  // ---------- the sieve ----------

  /** Between two multiples of p above start there is no third one. */
  lemma NotCongruent(j: int, start: int, p: int, k: int)
    requires p > 0 && p * k < j - start < p * k + p
    ensures !Congruent(j, start, p)
  {
    BetweenMultiples(p, k, j - start);
  }

  /** Marks start, start + p, start + 2p, ... below size. */
  method MarkFrom(a: array<bool>, size: nat, start: nat, p: int)
    requires size <= a.Length && 0 <= start < p
    modifies a
    ensures forall m :: 0 <= m < size ==> (a[m] <==> old(a[m]) || Congruent(m, start, p))
    ensures forall m :: size <= m < a.Length ==> a[m] == old(a[m])
  {
    hide Congruent;
    var m := start;
    ghost var k := 0;
    ghost var was := a[..];
    forall j | 0 <= j < start ensures !Congruent(j, start, p) {
      NotCongruent(j, start, p, -1);
    }
    while m < size
      invariant start <= m && m - start == p * k
      invariant forall j :: 0 <= j < size ==> (a[j] <==> was[j] || (j < m && Congruent(j, start, p)))
      invariant forall j :: size <= j < a.Length ==> a[j] == was[j]
      decreases size - m
    {
      a[m] := true;
      ghost var next := m + p;
      IsCongruent(m, start, p, k);
      forall j | m < j < next ensures !Congruent(j, start, p) {
        NotCongruent(j, start, p, k);
      }
      m := m + p;
      k := k + 1;
      assert p * k == p * (k - 1) + p;
    }
  }

  lemma IsCongruent(m: int, start: int, p: int, k: int)
    requires p > 0 && m - start == p * k
    ensures Congruent(m, start, p)
  {
    IsMultiple(p, k, m - start);
  }

  class SieveOfEratosthenes {
    const primes: seq<int>                 // vPrimes
    const nSieveSize: nat
    const nBits: nat
    const bnFixedFactor: int
    const vfCompositeCunningham1: array<bool>
    const vfCompositeCunningham2: array<bool>
    const vfCompositeBiTwin: array<bool>
    var nPrimeSeq: nat
    var nCandidateMultiplier: nat

    function L(): nat { Target.Length(nBits) }

    ghost predicate Shape() {
      && vfCompositeCunningham1 != vfCompositeCunningham2 && vfCompositeCunningham1 != vfCompositeBiTwin
      && vfCompositeCunningham2 != vfCompositeBiTwin
      && nSieveSize <= vfCompositeCunningham1.Length && nSieveSize <= vfCompositeCunningham2.Length
      && nSieveSize <= vfCompositeBiTwin.Length
      && forall i :: 0 <= i < |primes| ==> IsPrime(primes[i])
    }

    /** One of the first j primes divides a member of the chain over multiplier m. */
    ghost predicate Composite(delta: int, m: int, j: nat)
      requires j <= |primes| && Shape()
    {
      exists i :: 0 <= i < j && Hits(bnFixedFactor, primes[i], m, delta, L())
    }

    ghost predicate CompositeBiTwin(m: int, j: nat)
      requires j <= |primes| && Shape()
    {
      exists i :: 0 <= i < j && HitsBiTwin(bnFixedFactor, primes[i], m, L())
    }

    /** The bitmaps are exact for the primes woven so far. */
    ghost predicate Valid()
      reads this, vfCompositeCunningham1, vfCompositeCunningham2, vfCompositeBiTwin
    {
      && Shape() && nPrimeSeq <= |primes|
      && (forall m :: 0 <= m < nSieveSize ==>
            && (vfCompositeCunningham1[m] <==> Composite(-1, m, nPrimeSeq))
            && (vfCompositeCunningham2[m] <==> Composite(1, m, nPrimeSeq))
            && (vfCompositeBiTwin[m] <==> CompositeBiTwin(m, nPrimeSeq)))
    }

    constructor (primes: seq<int>, nSieveSize: nat, nBits: nat, hashBlockHeader: int, bnFixedMultiplier: int)
      requires nSieveSize <= MAX_SIEVE_SIZE && forall i :: 0 <= i < |primes| ==> IsPrime(primes[i])
      ensures Valid() && nPrimeSeq == 0 && nCandidateMultiplier == 0
      ensures bnFixedFactor == bnFixedMultiplier * hashBlockHeader && this.primes == primes
      ensures this.nSieveSize == nSieveSize && this.nBits == nBits
    {
      this.primes, this.nSieveSize, this.nBits := primes, nSieveSize, nBits;
      bnFixedFactor := bnFixedMultiplier * hashBlockHeader;
      nPrimeSeq, nCandidateMultiplier := 0, 0;
      vfCompositeCunningham1 := new bool[MAX_SIEVE_SIZE](_ => false);
      vfCompositeCunningham2 := new bool[MAX_SIEVE_SIZE](_ => false);
      vfCompositeBiTwin := new bool[MAX_SIEVE_SIZE](_ => false);
    }

    /** What the loop over one prime p has marked after seq of its 2L steps, on top of the
        bitmaps it started from. */
    ghost predicate Marked(p: int, seq_: nat, c1: seq<bool>, c2: seq<bool>, bi: seq<bool>)
      requires p > 0 && Shape() && |c1| >= nSieveSize && |c2| >= nSieveSize && |bi| >= nSieveSize
      reads vfCompositeCunningham1, vfCompositeCunningham2, vfCompositeBiTwin
    {
      forall m :: 0 <= m < nSieveSize ==>
        && (vfCompositeCunningham1[m] <==> c1[m] || Hits(bnFixedFactor, p, m, -1, (seq_ + 1) / 2))
        && (vfCompositeCunningham2[m] <==> c2[m] || Hits(bnFixedFactor, p, m, 1, seq_ / 2))
        && (vfCompositeBiTwin[m] <==> bi[m] || HitsBiTwin(bnFixedFactor, p, m, if seq_ < L() then seq_ else L()))
    }

    /** One step of the loop over the chain members. */
    method WeaveStep(p: int, inverse: int, seq_: nat, ghost c1: seq<bool>, ghost c2: seq<bool>, ghost bi: seq<bool>)
      requires p > 0 && Shape() && |c1| >= nSieveSize && |c2| >= nSieveSize && |bi| >= nSieveSize
      requires seq_ < 2 * L() && IsInverse(bnFixedFactor * Pow2(seq_ / 2), inverse, p)
      requires Marked(p, seq_, c1, c2, bi)
      modifies vfCompositeCunningham1, vfCompositeCunningham2, vfCompositeBiTwin
      ensures Marked(p, seq_ + 1, c1, c2, bi)
    {
      hide Divides, Congruent, IsInverse, Hits, HitsBiTwin, IsPrime, Member, BiTwinMember;
      var delta := if seq_ % 2 == 0 then -1 else 1;
      var solved := (inverse * (p - delta)) % p;
      forall m | 0 <= m < nSieveSize
        ensures Congruent(m, solved, p) <==> Divides(p, Member(bnFixedFactor, m, seq_ / 2, delta))
      {
        SolvedMember(bnFixedFactor, seq_ / 2, inverse, p, delta, m);
      }
      forall m | 0 <= m < nSieveSize ensures MoreHits(bnFixedFactor, p, m, seq_, delta) {
        HitsStep(bnFixedFactor, p, m, seq_, delta);
      }
      if seq_ < L() {
        MarkFrom(vfCompositeBiTwin, nSieveSize, solved, p);
      }
      if seq_ % 2 == 0 {
        MarkFrom(vfCompositeCunningham1, nSieveSize, solved, p);
      }
      if seq_ % 2 == 1 {
        MarkFrom(vfCompositeCunningham2, nSieveSize, solved, p);
      }
      forall m | 0 <= m < nSieveSize
        ensures vfCompositeCunningham1[m] <==> c1[m] || Hits(bnFixedFactor, p, m, -1, (seq_ + 2) / 2)
        ensures vfCompositeCunningham2[m] <==> c2[m] || Hits(bnFixedFactor, p, m, 1, (seq_ + 1) / 2)
        ensures vfCompositeBiTwin[m] <==> bi[m] || HitsBiTwin(bnFixedFactor, p, m, if seq_ + 1 < L() then seq_ + 1 else L())
      {
        assert MoreHits(bnFixedFactor, p, m, seq_, delta);
      }
    }

    /** The loop over the members, for a prime with an inverse of the factor and of two. */
    method WeaveMembers(p: int, fixedInverse: int, half: int)
      requires p > 0 && Shape()
      requires IsInverse(bnFixedFactor, fixedInverse, p) && IsInverse(2, half, p)
      modifies vfCompositeCunningham1, vfCompositeCunningham2, vfCompositeBiTwin
      ensures Marked(p, 2 * L(), old(vfCompositeCunningham1[..]), old(vfCompositeCunningham2[..]), old(vfCompositeBiTwin[..]))
    {
      hide IsInverse, IsPrime;
      var inverse, i := fixedInverse, 0;
      ghost var c1, c2, bi := vfCompositeCunningham1[..], vfCompositeCunningham2[..], vfCompositeBiTwin[..];
      assert bnFixedFactor * Pow2(0) == bnFixedFactor;
      while i < 2 * L()
        invariant 0 <= i <= 2 * L()
        invariant IsInverse(bnFixedFactor * Pow2(i / 2), inverse, p)
        invariant Marked(p, i, c1, c2, bi)
      {
        WeaveStep(p, inverse, i, c1, c2, bi);
        if i % 2 == 1 {
          NextInverse(bnFixedFactor * Pow2(i / 2), inverse, half, p);
          Doubled(bnFixedFactor, i / 2);
          inverse := inverse * half;
        }
        i := i + 1;
      }
    }

    /** Weaves the next prime of the table. */
    method Weave() returns (ok: bool)
      requires Valid()
      modifies this`nPrimeSeq, vfCompositeCunningham1, vfCompositeCunningham2, vfCompositeBiTwin
      ensures Valid()
      ensures nPrimeSeq == old(nPrimeSeq) + (if ok then 1 else 0)
      ensures ok <==> old(nPrimeSeq) < |primes| && primes[old(nPrimeSeq)] < nSieveSize
                      && (primes[old(nPrimeSeq)] != 2 || bnFixedFactor % 2 == 0)
      ensures !ok ==> unchanged(this) && unchanged(vfCompositeCunningham1) && unchanged(vfCompositeCunningham2) && unchanged(vfCompositeBiTwin)
    {
      hide Hits, HitsBiTwin, IsInverse, IsPrime;
      if nPrimeSeq >= |primes| || primes[nPrimeSeq] >= nSieveSize {
        return false;
      }
      var p := primes[nPrimeSeq];
      PrimeIsPositive(p);
      ghost var c1, c2, bi := vfCompositeCunningham1[..], vfCompositeCunningham2[..], vfCompositeBiTwin[..];
      if Divides(p, bnFixedFactor) {
        forall m | 0 <= m < nSieveSize
          ensures !Hits(bnFixedFactor, p, m, -1, L()) && !Hits(bnFixedFactor, p, m, 1, L())
          ensures !HitsBiTwin(bnFixedFactor, p, m, L())
        {
          FactorHitsNothing(bnFixedFactor, p, m, L());
        }
        Advance(c1, c2, bi);
        return true;
      }
      var found, inverse := ModInverse(bnFixedFactor, p);
      InverseInRange(bnFixedFactor, p);
      var foundTwo, half := ModInverse(2, p);
      HalfExists(p);
      if !foundTwo {
        return false;
      }
      WeaveMembers(p, inverse, half);
      Advance(c1, c2, bi);
      return true;
    }

    /** The given bitmaps are exact for the first j primes. */
    ghost predicate Exact(c1: seq<bool>, c2: seq<bool>, bi: seq<bool>, j: nat)
      requires Shape() && j <= |primes| && |c1| >= nSieveSize && |c2| >= nSieveSize && |bi| >= nSieveSize
    {
      forall m :: 0 <= m < nSieveSize ==>
        && (c1[m] <==> Composite(-1, m, j)) && (c2[m] <==> Composite(1, m, j)) && (bi[m] <==> CompositeBiTwin(m, j))
    }

    /** Moves on to the next prime once all members have been woven for this one. */
    method Advance(ghost c1: seq<bool>, ghost c2: seq<bool>, ghost bi: seq<bool>)
      requires Shape() && nPrimeSeq < |primes| && primes[nPrimeSeq] > 0
      requires |c1| >= nSieveSize && |c2| >= nSieveSize && |bi| >= nSieveSize
      requires Exact(c1, c2, bi, nPrimeSeq)
      requires Marked(primes[nPrimeSeq], 2 * L(), c1, c2, bi)
      modifies this`nPrimeSeq
      ensures Valid() && nPrimeSeq == old(nPrimeSeq) + 1
    {
      hide Hits, HitsBiTwin, IsPrime;
      ghost var j := nPrimeSeq;
      forall m | 0 <= m < nSieveSize
        ensures Composite(-1, m, j + 1) <==> Composite(-1, m, j) || Hits(bnFixedFactor, primes[j], m, -1, L())
        ensures Composite(1, m, j + 1) <==> Composite(1, m, j) || Hits(bnFixedFactor, primes[j], m, 1, L())
        ensures CompositeBiTwin(m, j + 1) <==> CompositeBiTwin(m, j) || HitsBiTwin(bnFixedFactor, primes[j], m, L())
      {
        OneMorePrime(m, j);
      }
      assert (2 * L() + 1) / 2 == L() && (2 * L()) / 2 == L();
      nPrimeSeq := nPrimeSeq + 1;
    }

    lemma OneMorePrime(m: int, j: nat)
      requires Shape() && j < |primes|
      ensures Composite(-1, m, j + 1) <==> Composite(-1, m, j) || Hits(bnFixedFactor, primes[j], m, -1, L())
      ensures Composite(1, m, j + 1) <==> Composite(1, m, j) || Hits(bnFixedFactor, primes[j], m, 1, L())
      ensures CompositeBiTwin(m, j + 1) <==> CompositeBiTwin(m, j) || HitsBiTwin(bnFixedFactor, primes[j], m, L())
    {
      hide Hits, HitsBiTwin, IsPrime;
    }

    // ---------- candidates ----------

    predicate Unmarked(m: nat)
      requires Shape() && m < nSieveSize
      reads vfCompositeCunningham1, vfCompositeCunningham2, vfCompositeBiTwin
    {
      !vfCompositeCunningham1[m] || !vfCompositeCunningham2[m] || !vfCompositeBiTwin[m]
    }

    method GetCandidateCount() returns (nCandidates: nat)
      requires Shape()
      ensures nCandidates == |set m: nat | m < nSieveSize && Unmarked(m)|
    {
      nCandidates := 0;
      ghost var seen: set<nat> := {};
      for m := 0 to nSieveSize
        invariant seen == set i: nat | i < m && Unmarked(i)
        invariant nCandidates == |seen|
      {
        if !vfCompositeCunningham1[m] || !vfCompositeCunningham2[m] || !vfCompositeBiTwin[m] {
          nCandidates := nCandidates + 1;
          seen := seen + {m};
        }
      }
      assert seen == set m: nat | m < nSieveSize && Unmarked(m);
    }

    /** The next unmarked multiplier after the current one, with its most specific chain type. */
    method GetNextCandidateMultiplier() returns (found: bool, m: nat, kind: ChainType)
      requires Shape()
      modifies this`nCandidateMultiplier
      ensures found ==> && m == nCandidateMultiplier && old(nCandidateMultiplier) < m < nSieveSize && Unmarked(m)
                        && (forall i :: old(nCandidateMultiplier) < i < m ==> !Unmarked(i))
      ensures found ==> && (kind == BiTwin <==> !vfCompositeBiTwin[m])
                        && (kind == Cunningham1 <==> vfCompositeBiTwin[m] && !vfCompositeCunningham1[m])
      ensures !found ==> nCandidateMultiplier == 0
                         && forall i :: old(nCandidateMultiplier) < i < nSieveSize ==> !Unmarked(i)
    {
      ghost var start := nCandidateMultiplier;
      while true
        invariant start <= nCandidateMultiplier
        invariant forall i :: start < i <= nCandidateMultiplier && i < nSieveSize ==> !Unmarked(i)
        decreases nSieveSize - nCandidateMultiplier
      {
        nCandidateMultiplier := nCandidateMultiplier + 1;
        if nCandidateMultiplier >= nSieveSize {
          nCandidateMultiplier := 0;
          return false, 0, BiTwin;
        }
        if !vfCompositeBiTwin[nCandidateMultiplier] {
          return true, nCandidateMultiplier, BiTwin;
        }
        if !vfCompositeCunningham1[nCandidateMultiplier] {
          return true, nCandidateMultiplier, Cunningham1;
        }
        if !vfCompositeCunningham2[nCandidateMultiplier] {
          return true, nCandidateMultiplier, Cunningham2;
        }
      }
    }

    /** A scan from the start hands out every unmarked positive multiplier once, in order, and
        leaves the sieve ready for another scan. */
    method Scan() returns (candidates: seq<nat>)
      requires Shape() && nCandidateMultiplier == 0
      modifies this`nCandidateMultiplier
      ensures nCandidateMultiplier == 0
      ensures forall i, j :: 0 <= i < j < |candidates| ==> candidates[i] < candidates[j]
      ensures forall m :: m in candidates <==> 0 < m < nSieveSize && Unmarked(m)
    {
      candidates := [];
      while true
        invariant forall i :: 0 <= i < |candidates| ==> candidates[i] <= nCandidateMultiplier
        invariant forall i, j :: 0 <= i < j < |candidates| ==> candidates[i] < candidates[j]
        invariant forall m :: m in candidates <==> 0 < m <= nCandidateMultiplier && m < nSieveSize && Unmarked(m)
        decreases nSieveSize - nCandidateMultiplier
      {
        var found, m, _ := GetNextCandidateMultiplier();
        if !found {
          return;
        }
        assert forall i :: 0 <= i < |candidates| ==> candidates[i] in candidates;
        candidates := candidates + [m];
      }
    }

    /** The sieve discards no chain of primes: if the first L members over multiplier m are
        all primes, and larger than every prime woven so far, the chain is not marked. */
    lemma NoPrimeChainIsMarked(m: nat)
      requires Valid() && m < nSieveSize
      ensures AllPrimeAbove(-1, m) ==> !vfCompositeCunningham1[m]
      ensures AllPrimeAbove(1, m) ==> !vfCompositeCunningham2[m]
      ensures BiTwinPrimesAbove(m) ==> !vfCompositeBiTwin[m]
    {
      hide Member, BiTwinMember;
      if AllPrimeAbove(-1, m) && Composite(-1, m, nPrimeSeq) {
        NotAllPrime(-1, m);
      }
      if AllPrimeAbove(1, m) && Composite(1, m, nPrimeSeq) {
        NotAllPrime(1, m);
      }
      if BiTwinPrimesAbove(m) && CompositeBiTwin(m, nPrimeSeq) {
        NotAllBiTwinPrime(m);
      }
    }

    lemma NotAllBiTwinPrime(m: nat)
      requires Shape() && nPrimeSeq <= |primes| && CompositeBiTwin(m, nPrimeSeq)
      ensures !BiTwinPrimesAbove(m)
    {
      hide BiTwinMember;
      var i :| 0 <= i < nPrimeSeq && HitsBiTwin(bnFixedFactor, primes[i], m, L());
      var k: nat :| k < L() && Divides(primes[i], BiTwinMember(bnFixedFactor, m, k));
      if Above(BiTwinMember(bnFixedFactor, m, k)) {
        NotPrime(BiTwinMember(bnFixedFactor, m, k), primes[i]);
      }
    }

    lemma NotAllPrime(delta: int, m: nat)
      requires Shape() && nPrimeSeq <= |primes| && Composite(delta, m, nPrimeSeq)
      ensures !AllPrimeAbove(delta, m)
    {
      hide Member;
      var i :| 0 <= i < nPrimeSeq && Hits(bnFixedFactor, primes[i], m, delta, L());
      var k: nat :| k < L() && Divides(primes[i], Member(bnFixedFactor, m, k, delta));
      if Above(Member(bnFixedFactor, m, k, delta)) {
        NotPrime(Member(bnFixedFactor, m, k, delta), primes[i]);
      }
    }

    ghost predicate Above(n: int)
      reads this
    {
      nPrimeSeq <= |primes| && forall i :: 0 <= i < nPrimeSeq ==> primes[i] < n
    }

    ghost predicate AllPrimeAbove(delta: int, m: nat)
      reads this
    {
      forall k: nat :: k < L() ==>
        IsPrime(Member(bnFixedFactor, m, k, delta)) && Above(Member(bnFixedFactor, m, k, delta))
    }

    ghost predicate BiTwinPrimesAbove(m: nat)
      reads this
    {
      forall k: nat :: k < L() ==>
        IsPrime(BiTwinMember(bnFixedFactor, m, k)) && Above(BiTwinMember(bnFixedFactor, m, k))
    }
  }

  lemma NotPrime(n: int, p: int)
    requires 2 <= p < n && Divides(p, n)
    ensures !IsPrime(n)
  {
  }

  lemma PrimeIsPositive(p: int)
    requires IsPrime(p)
    ensures p >= 2
  {
  }

  lemma Doubled(factor: int, k: nat)
    ensures factor * Pow2(k + 1) == factor * Pow2(k) * 2
  {
  }

  /** Two has an inverse modulo every prime but itself. */
  lemma HalfExists(p: int)
    requires IsPrime(p)
    ensures (exists y :: 0 <= y < p && IsInverse(2, y, p)) <==> p != 2
  {
    if p == 2 {
      forall y: int ensures !IsInverse(2, y, p) {
        assert 2 * y - 1 == 2 * (y - 1) + 1;
      }
    } else {
      assert 2 % p == 2;
      InverseInRange(2, p);
    }
  }

  lemma FactorHitsNothing(factor: int, p: int, m: int, n: nat)
    requires p >= 2 && Divides(p, factor)
    ensures !Hits(factor, p, m, -1, n) && !Hits(factor, p, m, 1, n) && !HitsBiTwin(factor, p, m, n)
  {
    hide Divides, Member;
    forall k: nat ensures !Divides(p, Member(factor, m, k, -1)) && !Divides(p, Member(factor, m, k, 1)) {
      FactorDividesNoMember(factor, p, m, k, -1);
      FactorDividesNoMember(factor, p, m, k, 1);
    }
  }

  lemma SolvedMember(factor: int, k: nat, inverse: int, p: int, delta: int, m: int)
    requires p > 0 && IsInverse(factor * Pow2(k), inverse, p)
    ensures var s := (inverse * (p - delta)) % p;
            Congruent(m, s, p) <==> Divides(p, Member(factor, m, k, delta))
  {
    Solved(factor * Pow2(k), inverse, p, delta, m);
  }

  /** One more step adds one more member to the right kinds of chain. */
  ghost predicate MoreHits(factor: int, p: int, m: int, seq_: nat, delta: int)
    requires p > 0
  {
    var hit := Divides(p, Member(factor, m, seq_ / 2, delta));
    && (Hits(factor, p, m, -1, (seq_ + 2) / 2) <==> Hits(factor, p, m, -1, (seq_ + 1) / 2) || (seq_ % 2 == 0 && hit))
    && (Hits(factor, p, m, 1, (seq_ + 1) / 2) <==> Hits(factor, p, m, 1, seq_ / 2) || (seq_ % 2 == 1 && hit))
    && (HitsBiTwin(factor, p, m, seq_ + 1) <==> HitsBiTwin(factor, p, m, seq_) || hit)
  }

  lemma HitsStep(factor: int, p: int, m: int, seq_: nat, delta: int)
    requires p > 0 && delta == if seq_ % 2 == 0 then -1 else 1
    ensures MoreHits(factor, p, m, seq_, delta)
  {
    hide Divides, Member;
    OneMoreMember(factor, p, m, -1, (seq_ + 1) / 2);
    OneMoreMember(factor, p, m, 1, seq_ / 2);
    var hit := Divides(p, BiTwinMember(factor, m, seq_));
    if HitsBiTwin(factor, p, m, seq_ + 1) {
      var i: nat :| i < seq_ + 1 && Divides(p, BiTwinMember(factor, m, i));
      assert i < seq_ || i == seq_;
    }
    if hit {
      assert seq_ < seq_ + 1 && Divides(p, BiTwinMember(factor, m, seq_));
    }
  }

  lemma OneMoreMember(factor: int, p: int, m: int, delta: int, n: nat)
    requires p > 0
    ensures Hits(factor, p, m, delta, n + 1) <==> Hits(factor, p, m, delta, n) || Divides(p, Member(factor, m, n, delta))
  {
    hide Divides, Member;
    if Hits(factor, p, m, delta, n + 1) {
      var k: nat :| k < n + 1 && Divides(p, Member(factor, m, k, delta));
      assert k < n || k == n;
    }
  }
}
