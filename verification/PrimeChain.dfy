/** Probable-prime chain tests: the Fermat test, the Euler-Lagrange-Lifchitz test, the length
    of a Cunningham chain and of a BiTwin chain. Chain lengths are 32-bit words with 24
    fractional bits, as the targets are.
    (src/prime.cpp, FermatProbablePrimalityTest to ProbablePrimeChainTest) */
module PrimeChain {
  import opened Basics
  import opened Sieve
  import T = Target

  // ---------- arithmetic ----------

  /** Reducing before squaring changes nothing. */
  lemma SquareOfRemainder(x: int, n: int)
    requires n > 0
    ensures ((x % n) * (x % n)) % n == (x * x) % n
  {
    var q, r := x / n, x % n;
    var q2, r2 := (r * r) / n, (r * r) % n;
    assert x == n * q + r;
    assert x * x == n * (q * x + q * r) + r * r by {
      assert x * x == (n * q + r) * x;
      assert (n * q + r) * x == n * (q * x) + r * x;
      assert r * x == n * (q * r) + r * r;
    }
    assert n * (q * x + q * r) + n * q2 == n * (q * x + q * r + q2);
    DivMod(x * x, n, q * x + q * r + q2, r2);
  }

  lemma {:induction false} Pow2Add(a: nat, b: nat)
    ensures Pow2(a + b) == Pow2(a) * Pow2(b)
  {
    if a > 0 {
      Pow2Add(a - 1, b);
    }
  }

  /** An odd number above one divides no power of two. */
  lemma {:induction false} OddDividesNoPower(n: int, k: nat)
    requires n >= 3 && n % 2 == 1
    ensures Pow2(k) % n != 0
  {
    if k == 0 {
    } else {
      OddDividesNoPower(n, k - 1);
      var q := Pow2(k) / n;
      if Pow2(k) % n == 0 {
        assert Pow2(k) == n * q;
        EvenCofactor(n, q, Pow2(k - 1));
        DivMod(Pow2(k - 1), n, q / 2, 0);
      }
    }
  }

  lemma EvenCofactor(n: int, q: int, x: int)
    requires n % 2 == 1 && n * q == 2 * x
    ensures n * (q / 2) == x
  {
    var h := n / 2;
    assert n == 2 * h + 1;
    assert n * q == 2 * (h * q) + q;
    assert q % 2 == 0;
    assert q == 2 * (q / 2);
    assert n * q == 2 * (n * (q / 2));
  }

  // ---------- the two tests ----------

  /** Error stands for the logged failures that leave the length as it is. */
  datatype Outcome = Passed | Composite(nLength: nat) | Error

  function FermatRemainder(n: int): int
    requires n >= 1
  {
    Pow2(n - 1) % n
  }

  /** How far the remainder of a failing number is from n, in units of 2^-24. */
  function FractionOf(n: int, r: int): nat
    requires n >= 1 && 0 <= r < n
  {
    ((n - r) * T.ONE) / n
  }

  function WithFraction(nLength: nat, fraction: nat): nat {
    nLength - T.Fraction(nLength) + fraction
  }

  function FermatProbablePrimalityTest(n: int, nLength: nat): Outcome
    requires n >= 1
  {
    var r := FermatRemainder(n);
    if r == 1 then Passed else
      var fraction := FractionOf(n, r);
      if fraction >= T.ONE then Error else Composite(WithFraction(nLength, fraction))
  }

  function EulerRemainder(n: int): int
    requires n >= 1
  {
    Pow2((n - 1) / 2) % n
  }

  function SquareMod(r: int, n: int): (s: int)
    requires n >= 1
    ensures 0 <= s < n
  {
    (r * r) % n
  }

  function EulerLagrangeLifchitzPrimalityTest(n: int, fSophieGermain: bool, nLength: nat): Outcome
    requires n >= 1
  {
    var r := EulerRemainder(n);
    if (fSophieGermain && n % 8 == 7 && r == 1) || (fSophieGermain && n % 8 == 3 && r + 1 == n)
      || (!fSophieGermain && n % 8 == 5 && r + 1 == n) || (!fSophieGermain && n % 8 == 1 && r == 1) then Passed
    else if (fSophieGermain && n % 8 != 7 && n % 8 != 3) || (!fSophieGermain && n % 8 != 5 && n % 8 != 1) then Error
    else
      var fraction := FractionOf(n, SquareMod(r, n));
      if fraction >= T.ONE then Error else Composite(WithFraction(nLength, fraction))
  }

  /** The fractional check fails exactly for a zero remainder. */
  lemma FractionOverflows(n: int, r: int)
    requires n >= 1 && 0 <= r < n
    ensures FractionOf(n, r) >= T.ONE <==> r == 0
  {
    var x := (n - r) * T.ONE;
    var q := x / n;
    assert x == n * q + x % n;
    assert x == T.ONE * n - T.ONE * r;
    assert n * q == q * n;
    if q >= T.ONE {
      Scaled(T.ONE, q, n);
    } else {
      Scaled(q, T.ONE - 1, n);
      assert (T.ONE - 1) * n == T.ONE * n - n;
    }
  }

  /** The remainder the Euler-Lagrange-Lifchitz test derives is the one of the Fermat test. */
  lemma DerivedRemainder(n: int)
    requires n >= 1 && n % 2 == 1
    ensures SquareMod(EulerRemainder(n), n) == FermatRemainder(n)
  {
    var h := (n - 1) / 2;
    Pow2Add(h, h);
    SquareOfRemainder(Pow2(h), n);
    assert h + h == n - 1;
  }

  lemma MinusOneSquared(n: int)
    requires n >= 2
    ensures SquareMod(n - 1, n) == 1 && SquareMod(1, n) == 1
  {
    assert (n - 1) * (n - 1) == n * (n - 2) + 1;
    DivMod((n - 1) * (n - 1), n, n - 2, 1);
  }

  /** On a number of the right residue the second test is at least as strict as the first,
      neither fails its fractional check, and where both reject they report the same length. */
  lemma LifchitzRefinesFermat(n: int, fSophieGermain: bool, nLength: nat)
    requires n >= 3 && n % 4 == if fSophieGermain then 3 else 1
    ensures var strict := EulerLagrangeLifchitzPrimalityTest(n, fSophieGermain, nLength);
            var fermat := FermatProbablePrimalityTest(n, nLength);
            && strict != Error && fermat != Error
            && (strict == Passed ==> fermat == Passed)
            && (fermat != Passed ==> strict == fermat)
  {
    hide FractionOf, EulerRemainder, FermatRemainder, WithFraction, SquareMod;
    Residues(n);
    DerivedRemainder(n);
    MinusOneSquared(n);
    FermatRemainderOdd(n);
    RemainderInRange(n);
    FractionOverflows(n, FermatRemainder(n));
  }

  lemma Residues(n: int)
    ensures n % 4 == 3 ==> (n % 8 == 3 || n % 8 == 7) && n % 2 == 1
    ensures n % 4 == 1 ==> (n % 8 == 1 || n % 8 == 5) && n % 2 == 1
  {
    var q, r := n / 8, n % 8;
    assert n == 8 * q + r;
    DivMod(n, 4, 2 * q + r / 4, r % 4);
    DivMod(n, 2, 4 * q + r / 2, r % 2);
  }

  lemma RemainderInRange(n: int)
    requires n >= 1
    ensures 0 <= FermatRemainder(n) < n
  {
  }

  lemma FermatRemainderOdd(n: int)
    requires n >= 3 && n % 2 == 1
    ensures FermatRemainder(n) != 0
  {
    OddDividesNoPower(n, n - 1);
  }

  // ---------- when a test ends in an error ----------

  ghost predicate PowerOfTwo(n: int) {
    exists j: nat :: n == Pow2(j)
  }

  lemma OneIsAPower()
    ensures PowerOfTwo(1)
  {
    assert Pow2(0) == 1;
  }

  lemma OddIsNoPower(n: int)
    requires n >= 3 && n % 2 == 1
    ensures !PowerOfTwo(n)
  {
    forall j: nat ensures n != Pow2(j) {
      PowerIsEven(j);
    }
  }

  lemma PowerIsEven(j: nat)
    ensures Pow2(j) == if j == 0 then 1 else 2 * Pow2(j - 1)
  {
  }

  lemma {:induction false} AboveExponent(j: nat)
    ensures Pow2(j) >= j + 1
  {
    if j > 0 {
      AboveExponent(j - 1);
    }
  }

  /** The divisors of powers of two are powers of two. */
  lemma {:induction false} DivisorOfPower(n: int, k: nat)
    requires n >= 1 && Pow2(k) % n == 0
    ensures PowerOfTwo(n)
  {
    if n == 1 {
      OneIsAPower();
    } else if n % 2 == 1 {
      OddDividesNoPower(n, k);
    } else if k > 0 {
      var h, q := n / 2, Pow2(k) / n;
      assert n == 2 * h && Pow2(k) == n * q && n * q == 2 * (h * q);
      DivMod(Pow2(k - 1), h, q, 0);
      DivisorOfPower(h, k - 1);
      var j: nat :| h == Pow2(j);
      assert n == Pow2(j + 1);
    }
  }

  lemma PowerHasZeroRemainder(j: nat)
    ensures FermatRemainder(Pow2(j)) == 0
  {
    hide Pow2;
    var n := Pow2(j);
    AboveExponent(j);
    var more := n - 1 - j;
    Pow2Add(j, more);
    assert j + more == n - 1;
    DivMod(Pow2(n - 1), n, Pow2(more), 0);
  }

  /** The Fermat test ends in an error for the powers of two, and for no other number. */
  lemma FermatErrorIff(n: int, nLength: nat)
    requires n >= 1
    ensures FermatProbablePrimalityTest(n, nLength).Error? <==> PowerOfTwo(n)
  {
    hide FractionOf, WithFraction, Pow2;
    RemainderInRange(n);
    FractionOverflows(n, FermatRemainder(n));
    if PowerOfTwo(n) {
      var j: nat :| n == Pow2(j);
      PowerHasZeroRemainder(j);
    } else if FermatRemainder(n) == 0 {
      DivisorOfPower(n, n - 1);
    }
  }

  // ---------- chains ----------

  /** Member k of a chain over an origin; delta is -1 for the first kind, +1 for the second. */
  function ChainMember(origin: int, delta: int, k: nat): int {
    origin * Pow2(k) + delta
  }

  lemma {:induction false} ChainMemberPositive(origin: int, delta: int, k: nat)
    requires origin + delta >= 1 && (delta == 1 || delta == -1)
    ensures ChainMember(origin, delta, k) >= 1
    ensures ChainMember(origin, delta, k + 1) == 2 * ChainMember(origin, delta, k) - delta
    ensures origin % 2 == 0 ==> ChainMember(origin, delta, k) % 2 == 1
  {
    if k > 0 {
      ChainMemberPositive(origin, delta, k - 1);
    }
    Doubled(origin, k);
  }

  lemma FourTimes(origin: int, k: nat)
    requires origin % 2 == 0 && k > 0
    ensures origin * Pow2(k) == 4 * (origin / 2 * Pow2(k - 1))
  {
    Doubled(origin, k - 1);
    var half := origin / 2;
    assert origin == 2 * half;
  }

  /** Members after the first one have the residue their test demands; all are odd. */
  lemma MemberResidue(origin: int, delta: int, k: nat)
    requires origin + delta >= 3 && origin % 2 == 0 && (delta == 1 || delta == -1)
    ensures ChainMember(origin, delta, k) >= 3 && ChainMember(origin, delta, k) % 2 == 1
    ensures k > 0 ==> ChainMember(origin, delta, k) % 4 == if delta == -1 then 3 else 1
  {
    ChainMemberPositive(origin, delta, k);
    Scaled(1, Pow2(k), origin);
    assert origin * Pow2(k) == Pow2(k) * origin;
    if k > 0 {
      var x := origin / 2 * Pow2(k - 1);
      FourTimes(origin, k);
      hide Pow2;
      if delta == -1 {
        DivMod(4 * x - 1, 4, x - 1, 3);
      } else {
        DivMod(4 * x + 1, 4, x, 1);
      }
    }
  }

  /** The chains the sieve talks about are chains over factor * multiplier. */
  lemma SameMembers(factor: int, m: int, delta: int, k: nat)
    ensures Sieve.Member(factor, m, k, delta) == ChainMember(factor * m, delta, k)
  {
    assert factor * Pow2(k) * m == factor * m * Pow2(k);
  }

  /** The test a member undergoes: Fermat for the first, then Fermat or Lifchitz. */
  function MemberTest(origin: int, delta: int, fFermatTest: bool, k: nat, nLength: nat): Outcome
    requires ChainMember(origin, delta, k) >= 1
  {
    if k == 0 || fFermatTest then FermatProbablePrimalityTest(ChainMember(origin, delta, k), nLength)
    else EulerLagrangeLifchitzPrimalityTest(ChainMember(origin, delta, k), delta == -1, nLength)
  }

  ghost predicate Passes(origin: int, delta: int, fFermatTest: bool, k: nat) {
    ChainMember(origin, delta, k) >= 1 && MemberTest(origin, delta, fFermatTest, k, 0).Passed?
  }

  /** Exactly the first count members pass. */
  ghost predicate IsCount(origin: int, delta: int, fFermatTest: bool, count: nat) {
    && !Passes(origin, delta, fFermatTest, count)
    && forall k: nat :: k < count ==> Passes(origin, delta, fFermatTest, k)
  }

  /** Fraction reported for a failing member; a member that ends in an error reports none. */
  function FractionAt(origin: int, delta: int, fFermatTest: bool, k: nat): nat
    requires ChainMember(origin, delta, k) >= 1
  {
    var t := MemberTest(origin, delta, fFermatTest, k, 0);
    if t.Composite? then t.nLength else 0
  }

  /** The tests judge a number independently of the length they are handed, and only replace
      its fraction. */
  lemma TestIgnoresLength(origin: int, delta: int, fFermatTest: bool, k: nat, nLength: nat)
    requires ChainMember(origin, delta, k) >= 1 && T.Fraction(nLength) == 0
    ensures var t := MemberTest(origin, delta, fFermatTest, k, nLength);
            && (t.Passed? <==> MemberTest(origin, delta, fFermatTest, k, 0).Passed?)
            && (t.Composite? ==> t.nLength == nLength + FractionAt(origin, delta, fFermatTest, k))
            && (t.Error? ==> FractionAt(origin, delta, fFermatTest, k) == 0)
  {
    hide ChainMember, FractionOf, FermatRemainder, EulerRemainder;
  }

  lemma FractionBelowOne(origin: int, delta: int, fFermatTest: bool, k: nat)
    requires ChainMember(origin, delta, k) >= 1
    ensures FractionAt(origin, delta, fFermatTest, k) < T.ONE
  {
    hide ChainMember, FractionOf, FermatRemainder, EulerRemainder;
  }

  /** The length word for a count and the fraction of the failing member; the eight length
      bits wrap. */
  function LengthWord(count: nat, fraction: nat): nat {
    (count % 256) * T.ONE + fraction
  }

  /** Walks up the chain; stop is a member known to fail. */
  method ProbableCunninghamChainTest(n: int, fSophieGermain: bool, fFermatTest: bool, ghost stop: nat)
    returns (ok: bool, nProbableChainLength: nat, ghost count: nat)
    requires n >= 1
    requires !Passes(OriginOf(n, fSophieGermain), DeltaOf(fSophieGermain), fFermatTest, stop)
    ensures var origin, delta := OriginOf(n, fSophieGermain), DeltaOf(fSophieGermain);
            && IsCount(origin, delta, fFermatTest, count) && count <= stop
            && ChainMember(origin, delta, count) >= 1
            && nProbableChainLength == LengthWord(count, FractionAt(origin, delta, fFermatTest, count))
            && (ok <==> count % 256 >= 2)
    ensures ok <==> T.Length(nProbableChainLength) >= 2
  {
    hide ChainMember, FractionOf, FermatRemainder, EulerRemainder, FermatProbablePrimalityTest,
      EulerLagrangeLifchitzPrimalityTest, FractionAt;
    ghost var origin, delta := OriginOf(n, fSophieGermain), DeltaOf(fSophieGermain);
    nProbableChainLength, count := 0, 0;
    var N := n;
    FirstMember(n, fSophieGermain);
    var test := FermatProbablePrimalityTest(N, nProbableChainLength);
    TestIgnoresLength(origin, delta, fFermatTest, 0, 0);
    if !test.Passed? {
      if test.Composite? {
        nProbableChainLength := test.nLength;
      }
      FractionBelowOne(origin, delta, fFermatTest, 0);
      WordLength(0, FractionAt(origin, delta, fFermatTest, 0));
      return false, nProbableChainLength, count;
    }
    while true
      invariant ChainMember(origin, delta, count) == N && N >= 1
      invariant test.Passed?
      invariant forall k: nat :: k <= count ==> Passes(origin, delta, fFermatTest, k)
      invariant nProbableChainLength == LengthWord(count, 0)
      decreases stop - count
    {
      nProbableChainLength := T.IncrementLength(nProbableChainLength);
      IncrementWord(count);
      N := N + N + (if fSophieGermain then 1 else -1);
      ChainMemberPositive(origin, delta, count);
      count := count + 1;
      if fFermatTest {
        test := FermatProbablePrimalityTest(N, nProbableChainLength);
      } else {
        test := EulerLagrangeLifchitzPrimalityTest(N, fSophieGermain, nProbableChainLength);
      }
      TestIgnoresLength(origin, delta, fFermatTest, count, nProbableChainLength);
      if !test.Passed? {
        if test.Composite? {
          nProbableChainLength := test.nLength;
        }
        break;
      }
    }
    FractionBelowOne(origin, delta, fFermatTest, count);
    WordLength(count, FractionAt(origin, delta, fFermatTest, count));
    ok := T.Length(nProbableChainLength) >= 2;
  }

  function DeltaOf(fSophieGermain: bool): int { if fSophieGermain then -1 else 1 }

  function OriginOf(n: int, fSophieGermain: bool): int { if fSophieGermain then n + 1 else n - 1 }

  lemma FirstMember(n: int, fSophieGermain: bool)
    ensures ChainMember(OriginOf(n, fSophieGermain), DeltaOf(fSophieGermain), 0) == n
  {
  }

  lemma IncrementWord(count: nat)
    ensures T.IncrementLength(LengthWord(count, 0)) == LengthWord(count + 1, 0)
    ensures T.Fraction(LengthWord(count + 1, 0)) == 0
  {
  }

  lemma WordLength(count: nat, fraction: nat)
    requires fraction < T.ONE
    ensures T.Length(LengthWord(count, fraction)) == count % 256
  {
  }

  /** For an even origin no test of either kind ends in an error, once the first member is
      above one. */
  lemma NoErrorForEvenOrigin(origin: int, delta: int, fFermatTest: bool, k: nat, nLength: nat)
    requires origin + delta >= 3 && origin % 2 == 0 && (delta == 1 || delta == -1)
    ensures ChainMember(origin, delta, k) >= 1 && !MemberTest(origin, delta, fFermatTest, k, nLength).Error?
  {
    hide ChainMember, FractionOf, FermatRemainder, EulerRemainder, WithFraction, SquareMod;
    var n := ChainMember(origin, delta, k);
    MemberResidue(origin, delta, k);
    FermatRemainderOdd(n);
    RemainderInRange(n);
    FractionOverflows(n, FermatRemainder(n));
    if k > 0 {
      LifchitzRefinesFermat(n, delta == -1, nLength);
    }
  }

  /** A chain over an odd origin is empty: its first member is even. */
  lemma OddOriginIsEmpty(origin: int, delta: int, fFermatTest: bool)
    requires origin + delta >= 1 && origin % 2 == 1 && (delta == 1 || delta == -1)
    ensures ChainMember(origin, delta, 0) == origin + delta && !Passes(origin, delta, fFermatTest, 0)
  {
    hide FractionOf, WithFraction;
    FermatRemainderEven(origin + delta);
  }

  lemma FermatRemainderEven(n: int)
    requires n >= 2 && n % 2 == 0
    ensures FermatRemainder(n) % 2 == 0
  {
    hide Pow2;
    PowerIsEven(n - 1);
    EvenRemainder(Pow2(n - 2), n / 2);
  }

  lemma EvenRemainder(p: int, h: int)
    requires h >= 1
    ensures (2 * p) % (2 * h) == 2 * (p % h)
  {
    var q, r := p / h, p % h;
    assert 2 * p == (2 * h) * q + 2 * r;
    DivMod(2 * p, 2 * h, q, 2 * r);
  }

  /** Exactly when a chain test ends in an error, leaving the length without a fraction: its
      first number, the origin less or more one, is a power of two. */
  lemma ChainErrorIff(origin: int, delta: int, fFermatTest: bool, count: nat, nLength: nat)
    requires origin + delta >= 1 && (delta == 1 || delta == -1) && IsCount(origin, delta, fFermatTest, count)
    ensures ChainMember(origin, delta, count) >= 1
    ensures MemberTest(origin, delta, fFermatTest, count, nLength).Error? <==> PowerOfTwo(origin + delta)
  {
    hide FermatProbablePrimalityTest, EulerLagrangeLifchitzPrimalityTest, ChainMember;
    ChainMemberPositive(origin, delta, count);
    FermatErrorIff(origin + delta, nLength);
    FirstIsFermat(origin, delta, fFermatTest);
    if origin % 2 == 1 {
      OddOriginIsEmpty(origin, delta, fFermatTest);
      assert count == 0;
    } else if origin + delta == 1 {
      FermatErrorIff(1, 0);
      OneIsAPower();
      assert count == 0;
    } else {
      NoErrorForEvenOrigin(origin, delta, fFermatTest, count, nLength);
      OddIsNoPower(origin + delta);
    }
  }

  lemma FirstIsFermat(origin: int, delta: int, fFermatTest: bool)
    ensures ChainMember(origin, delta, 0) == origin + delta
    ensures origin + delta >= 1 ==>
              (Passes(origin, delta, fFermatTest, 0) <==> FermatProbablePrimalityTest(origin + delta, 0).Passed?)
  {
    hide FermatProbablePrimalityTest, EulerLagrangeLifchitzPrimalityTest;
  }

  /** The stricter test never finds a longer chain, and chains of equal length carry equal
      fractions. */
  lemma LifchitzNeverLonger(origin: int, delta: int, strict: nat, fermat: nat)
    requires origin >= 4 && origin % 2 == 0 && (delta == 1 || delta == -1)
    requires IsCount(origin, delta, false, strict) && IsCount(origin, delta, true, fermat)
    ensures strict <= fermat
    ensures ChainMember(origin, delta, strict) >= 1
    ensures strict == fermat ==>
              FractionAt(origin, delta, false, strict) == FractionAt(origin, delta, true, fermat)
  {
    hide ChainMember, FermatProbablePrimalityTest, EulerLagrangeLifchitzPrimalityTest;
    assert strict > fermat ==> Passes(origin, delta, false, fermat);
    if strict > fermat {
      MemberRefines(origin, delta, fermat);
    } else {
      MemberRefines(origin, delta, strict);
    }
  }

  lemma MemberRefines(origin: int, delta: int, k: nat)
    requires origin >= 4 && origin % 2 == 0 && (delta == 1 || delta == -1)
    ensures ChainMember(origin, delta, k) >= 1
    ensures var strict := MemberTest(origin, delta, false, k, 0);
            var fermat := MemberTest(origin, delta, true, k, 0);
            (strict.Passed? ==> fermat.Passed?) && (!fermat.Passed? ==> strict == fermat)
  {
    hide ChainMember, FermatProbablePrimalityTest, EulerLagrangeLifchitzPrimalityTest;
    MemberResidue(origin, delta, k);
    if k > 0 {
      LifchitzRefinesFermat(ChainMember(origin, delta, k), delta == -1, 0);
    }
  }

  // ---------- BiTwin chains ----------

  /** Member i of O - 1, O + 1, 2O - 1, 2O + 1, ... passes. */
  ghost predicate BiTwinPasses(origin: int, fFermatTest: bool, i: nat) {
    Passes(origin, if i % 2 == 0 then -1 else 1, fFermatTest, i / 2)
  }

  /** The longest passing prefix of the interleaved members has count members. */
  ghost predicate IsBiTwinCount(origin: int, fFermatTest: bool, count: nat) {
    && !BiTwinPasses(origin, fFermatTest, count)
    && forall i: nat :: i < count ==> BiTwinPasses(origin, fFermatTest, i)
  }

  function BiTwinCount(a: nat, b: nat): nat { if a > b then 2 * b + 1 else 2 * a }

  lemma BiTwinCountIsLongest(origin: int, fFermatTest: bool, a: nat, b: nat)
    requires IsCount(origin, -1, fFermatTest, a) && IsCount(origin, 1, fFermatTest, b)
    ensures IsBiTwinCount(origin, fFermatTest, BiTwinCount(a, b))
  {
    hide Passes;
    var t := BiTwinCount(a, b);
    assert t / 2 == if a > b then b else a;
    forall i: nat | i < t ensures BiTwinPasses(origin, fFermatTest, i) {
      assert i % 2 == 0 ==> i / 2 < a;
      assert i % 2 == 1 ==> i / 2 < b;
    }
  }

  function TargetFromInt(n: nat): nat { (n * T.ONE) % WORD }

  /** Lengths of the three chains over an origin. Its counts are exact. The BiTwin length is
      formed from the eight length bits of the other two: while the counts fit them, it is the
      longest passing prefix of the interleaved members together with the fraction of the
      first failing one. */
  method ProbablePrimeChainTest(origin: int, nBits: nat, fFermatTest: bool, ghost stop1: nat, ghost stop2: nat)
    returns (ok: bool, length1: nat, length2: nat, lengthBiTwin: nat, ghost a: nat, ghost b: nat)
    requires origin >= 2
    requires !Passes(origin, -1, fFermatTest, stop1) && !Passes(origin, 1, fFermatTest, stop2)
    ensures IsCount(origin, -1, fFermatTest, a) && ChainMember(origin, -1, a) >= 1
    ensures length1 == LengthWord(a, FractionAt(origin, -1, fFermatTest, a))
    ensures IsCount(origin, 1, fFermatTest, b) && ChainMember(origin, 1, b) >= 1
    ensures length2 == LengthWord(b, FractionAt(origin, 1, fFermatTest, b))
    ensures IsBiTwinCount(origin, fFermatTest, BiTwinCount(a, b))
    ensures lengthBiTwin == LengthWord(BiTwinCount(a % 256, b % 256),
                                       if a % 256 > b % 256 then FractionAt(origin, 1, fFermatTest, b)
                                       else FractionAt(origin, -1, fFermatTest, a))
    ensures ok <==> length1 >= nBits || length2 >= nBits || lengthBiTwin >= nBits
  {
    hide ChainMember, IsCount, IsBiTwinCount, FractionAt, Passes, LengthWord, TargetFromInt;
    var ok1, ok2;
    ok1, length1, a := ProbableCunninghamChainTest(origin - 1, true, fFermatTest, stop1);
    ok2, length2, b := ProbableCunninghamChainTest(origin + 1, false, fFermatTest, stop2);
    lengthBiTwin :=
      if T.Length(length1) > T.Length(length2) then (length2 + TargetFromInt(T.Length(length2) + 1)) % WORD
      else (length1 + TargetFromInt(T.Length(length1))) % WORD;
    FractionBelowOne(origin, -1, fFermatTest, a);
    FractionBelowOne(origin, 1, fFermatTest, b);
    WordLength(a, FractionAt(origin, -1, fFermatTest, a));
    WordLength(b, FractionAt(origin, 1, fFermatTest, b));
    BiTwinCountIsLongest(origin, fFermatTest, a, b);
    DoubleWord(b, b % 256 + 1, FractionAt(origin, 1, fFermatTest, b));
    DoubleWord(a, a % 256, FractionAt(origin, -1, fFermatTest, a));
    ok := length1 >= nBits || length2 >= nBits || lengthBiTwin >= nBits;
  }

  lemma DoubleWord(c: nat, more: nat, fraction: nat)
    requires fraction < T.ONE && more <= 256
    ensures (LengthWord(c, fraction) + TargetFromInt(more)) % WORD == LengthWord(c % 256 + more, fraction)
  {
    var n := c % 256 + more;
    assert TargetFromInt(more) == (if more == 256 then 0 else more) * T.ONE;
    assert n % 256 == if n < 256 then n else if n < 512 then n - 256 else 0;
  }

  /** A chain that meets a target has at least as many passing members as the target's length,
      and one more unless its fraction reaches the target's. */
  lemma MeetsTarget(count: nat, fraction: nat, nBits: nat)
    requires count < 256 && fraction < T.ONE
    ensures LengthWord(count, fraction) >= nBits <==>
              count > T.Length(nBits) || (count == T.Length(nBits) && fraction >= T.Fraction(nBits))
  {
  }
}
