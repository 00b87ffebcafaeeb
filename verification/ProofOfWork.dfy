/** The proof-of-work check of a block: limits, both kinds of chain test, and a certificate
    that cannot be halved to give a longer chain. (src/prime.cpp, CheckPrimeProofOfWork) */
module ProofOfWork {
  import opened Basics
  import opened PrimeChain
  import S = Sieve
  import T = Target

  /** The three lengths the chain test reports. */
  datatype Lengths = Lengths(first: nat, second: nat, biTwin: nat) {
    function Longest(): nat {
      if biTwin > first && biTwin > second then biTwin else if second > first then second else first
    }

    /** The kind the longest length belongs to; ties go to the first one in order. */
    function Kind(): S.ChainType {
      if biTwin > first && biTwin > second then S.BiTwin else if second > first then S.Cunningham2 else S.Cunningham1
    }
  }

  /** l holds the lengths of the chains over origin. */
  ghost predicate Measured(origin: int, fFermatTest: bool, l: Lengths) {
    exists a: nat, b: nat :: MeasuredBy(origin, fFermatTest, l, a, b)
  }

  ghost predicate MeasuredBy(origin: int, fFermatTest: bool, l: Lengths, a: nat, b: nat) {
    && IsCount(origin, -1, fFermatTest, a) && ChainMember(origin, -1, a) >= 1
    && l.first == LengthWord(a, FractionAt(origin, -1, fFermatTest, a))
    && IsCount(origin, 1, fFermatTest, b) && ChainMember(origin, 1, b) >= 1
    && l.second == LengthWord(b, FractionAt(origin, 1, fFermatTest, b))
    && l.biTwin == LengthWord(BiTwinCount(a % 256, b % 256), if a % 256 > b % 256 then FractionAt(origin, 1, fFermatTest, b)
                                                             else FractionAt(origin, -1, fFermatTest, a))
  }

  /** Every chain over origin ends. */
  ghost predicate Ends(origin: int) {
    forall delta, fFermatTest :: delta == 1 || delta == -1 ==> ChainEnds(origin, delta, fFermatTest)
  }

  ghost predicate ChainEnds(origin: int, delta: int, fFermatTest: bool) {
    exists k: nat :: !Passes(origin, delta, fFermatTest, k)
  }

  method Measure(origin: int, nBits: nat, fFermatTest: bool) returns (ok: bool, l: Lengths)
    requires origin >= 2 && Ends(origin)
    ensures Measured(origin, fFermatTest, l) && (ok <==> l.Longest() >= nBits)
  {
    hide Passes, IsCount, FractionAt, ChainMember, LengthWord;
    assert ChainEnds(origin, -1, fFermatTest) && ChainEnds(origin, 1, fFermatTest);
    ghost var stop1: nat :| !Passes(origin, -1, fFermatTest, stop1);
    ghost var stop2: nat :| !Passes(origin, 1, fFermatTest, stop2);
    var first, second, biTwin;
    ghost var a, b;
    ok, first, second, biTwin, a, b := ProbablePrimeChainTest(origin, nBits, fFermatTest, stop1, stop2);
    l := Lengths(first, second, biTwin);
    assert MeasuredBy(origin, fFermatTest, l, a, b);
  }

  predicate InRange(minLen: nat, hash: nat, nBits: nat, origin: int) {
    && minLen <= T.Length(nBits) <= 99 && hash >= Pow2(255)
    && Pow2(255) <= origin <= Pow2(2000) - 1
  }

  predicate Halvable(multiplier: int, origin: int) {
    multiplier % 2 == 0 && origin % 4 == 0
  }

  /** Accepts exactly if header, target and origin are in range, the chain meets the target,
      both kinds of test agree on all three lengths, and halving the multiplier, where it can
      be halved, gives no longer chain. */
  method CheckPrimeProofOfWork(minLen: nat, hash: nat, nBits: nat, multiplier: int)
    returns (ok: bool, kind: Option<S.ChainType>, nChainLength: nat, ghost strict: Lengths, ghost fermat: Lengths, ghost halved: Lengths)
    requires minLen >= 1 && Ends(hash * multiplier) && Ends(hash * multiplier / 2)
    ensures var origin := hash * multiplier;
            && (InRange(minLen, hash, nBits, origin) ==>
                  Measured(origin, false, strict) && nChainLength == strict.Longest() && kind == Some(strict.Kind()))
            && (InRange(minLen, hash, nBits, origin) && nChainLength >= nBits ==> Measured(origin, true, fermat))
            && (InRange(minLen, hash, nBits, origin) && nChainLength >= nBits && strict == fermat ==>
                  Halvable(multiplier, origin) ==> Measured(origin / 2, false, halved))
            && (ok <==> InRange(minLen, hash, nBits, origin) && nChainLength >= nBits && strict == fermat
                        && (Halvable(multiplier, origin) ==> halved.Longest() <= nChainLength))
    ensures ok ==> nChainLength >= nBits && kind.Some?
  {
    hide Measured, Ends, Pow2;
    kind, nChainLength := None, 0;
    strict, fermat, halved := Lengths(0, 0, 0), Lengths(0, 0, 0), Lengths(0, 0, 0);
    if T.Length(nBits) < minLen || T.Length(nBits) > 99 {
      return false, kind, nChainLength, strict, fermat, halved;
    }
    if hash < Pow2(255) {
      return false, kind, nChainLength, strict, fermat, halved;
    }
    var origin := hash * multiplier;
    if origin < Pow2(255) {
      return false, kind, nChainLength, strict, fermat, halved;
    }
    if origin > Pow2(2000) - 1 {
      return false, kind, nChainLength, strict, fermat, halved;
    }
    LargeOrigin();
    var long, l := Measure(origin, nBits, false);
    strict := l;
    var longest;
    longest, nChainLength := Select(l);
    kind := Some(longest);
    if !long {
      return false, kind, nChainLength, strict, fermat, halved;
    }
    var longFermat, f := Measure(origin, nBits, true);
    fermat := f;
    if !longFermat {
      return false, kind, nChainLength, strict, fermat, halved;
    }
    if l != f {
      return false, kind, nChainLength, strict, fermat, halved;
    }
    if Halvable(multiplier, origin) {
      var longHalved, h := Measure(origin / 2, nBits, false);
      halved := h;
      if longHalved && (h.first > nChainLength || h.second > nChainLength || h.biTwin > nChainLength) {
        return false, kind, nChainLength, strict, fermat, halved;
      }
    }
    return true, kind, nChainLength, strict, fermat, halved;
  }

  method Select(l: Lengths) returns (kind: S.ChainType, nChainLength: nat)
    ensures nChainLength == l.Longest() && kind == l.Kind()
  {
    nChainLength, kind := l.first, S.Cunningham1;
    if l.second > nChainLength {
      nChainLength, kind := l.second, S.Cunningham2;
    }
    if l.biTwin > nChainLength {
      nChainLength, kind := l.biTwin, S.BiTwin;
    }
  }

  lemma LargeOrigin()
    ensures Pow2(255) >= 4 && Pow2(255) % 2 == 0 && Pow2(256) == 2 * Pow2(255) && Pow2(2000) >= Pow2(256)
  {
    hide Pow2;
    PowerIsEven(0);
    PowerIsEven(254);
    PowerIsEven(255);
    PowerIsEven(256);
    Pow2Add(1744, 256);
    Scaled(1, Pow2(1744), Pow2(256));
  }

  // ---------- what acceptance means ----------

  lemma WordsEqual(a: nat, b: nat, x: nat, y: nat)
    requires a < 256 && b < 256 && x < T.ONE && y < T.ONE
    ensures LengthWord(a, x) == LengthWord(b, y) <==> a == b && x == y
  {
  }

  /** For an even origin the comparison of the two kinds of test is a comparison of counts:
      the lengths agree if and only if no member passes the Fermat test right where the
      stricter test stops. */
  lemma DoubleCheckComparesCounts(origin: int, delta: int, strict: nat, fermat: nat)
    requires origin >= 4 && origin % 2 == 0 && (delta == 1 || delta == -1) && strict < 256 && fermat < 256
    requires IsCount(origin, delta, false, strict) && IsCount(origin, delta, true, fermat)
    ensures ChainMember(origin, delta, strict) >= 1 && ChainMember(origin, delta, fermat) >= 1
    ensures LengthWord(strict, FractionAt(origin, delta, false, strict)) == LengthWord(fermat, FractionAt(origin, delta, true, fermat))
            <==> !Passes(origin, delta, true, strict)
  {
    hide FractionAt, LengthWord, MemberTest, ChainMember;
    LifchitzNeverLonger(origin, delta, strict, fermat);
    MemberResidue(origin, delta, fermat);
    FractionBelowOne(origin, delta, false, strict);
    FractionBelowOne(origin, delta, true, fermat);
    WordsEqual(strict, fermat, FractionAt(origin, delta, false, strict), FractionAt(origin, delta, true, fermat));
    if strict < fermat {
      assert Passes(origin, delta, true, strict);
    }
  }

  /** The error of the fractional check can be reached by a certificate: header hash 2^255 + 1
      with multiplier 1 is in range, and its chain of the first kind starts at 2^255. */
  lemma ErrorWithinRange(minLen: nat, nBits: nat, fFermatTest: bool, nLength: nat)
    requires minLen <= T.Length(nBits) <= 99
    ensures var hash := Pow2(255) + 1;
            && hash < Pow2(256) && InRange(minLen, hash, nBits, hash * 1)
            && IsCount(hash * 1, -1, fFermatTest, 0) && ChainMember(hash * 1, -1, 0) >= 1
            && MemberTest(hash * 1, -1, fFermatTest, 0, nLength).Error?
  {
    hide Pow2, MemberTest, ChainMember, Passes;
    LargeOrigin();
    var origin := Pow2(255) + 1;
    OddOriginIsEmpty(origin, -1, fFermatTest);
    ChainErrorIff(origin, -1, fFermatTest, 0, nLength);
    assert PowerOfTwo(Pow2(255));
  }

  /** Halving the origin puts one member in front of the chain. */
  lemma HalvedMembers(origin: int, delta: int, k: nat)
    requires origin % 2 == 0
    ensures ChainMember(origin / 2, delta, k + 1) == ChainMember(origin, delta, k)
  {
    var half := origin / 2;
    assert origin == 2 * half;
    assert half * Pow2(k + 1) == half * 2 * Pow2(k);
  }

  /** So with Fermat tests a halved chain is longer by one if its first member passes, and
      empty if it does not: normalised certificates are those that cannot be extended down. */
  lemma HalvedLength(origin: int, delta: int, count: nat)
    requires origin % 2 == 0 && IsCount(origin, delta, true, count)
    ensures IsCount(origin / 2, delta, true, if Passes(origin / 2, delta, true, 0) then count + 1 else 0)
  {
    forall k: nat ensures Passes(origin / 2, delta, true, k + 1) == Passes(origin, delta, true, k) {
      HalvedMembers(origin, delta, k);
    }
    hide Passes;
    if Passes(origin / 2, delta, true, 0) {
      forall k: nat | k < count + 1 ensures Passes(origin / 2, delta, true, k) {
        if k > 0 {
          assert Passes(origin / 2, delta, true, (k - 1) + 1) == Passes(origin, delta, true, k - 1);
        }
      }
    }
  }
}
