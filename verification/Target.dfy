/** Proof-of-work targets: 8 bits of chain length and 24 bits of fractional length, the
    continuous retargeting rule, the mint value and the work of a block.
    The minimum length is a parameter: 6 on the main network, 2 on the test network.
    (src/prime.cpp, Target*; src/main.cpp, CBlockIndex::GetBlockWork) */
module Target {
  import opened Basics

  const ONE := 0x100_0000                             // 1 << nFractionalBits
  const MAX_FRACTION := 0xFF_0000                     // ONE - (1 << 16)
  const DIFFICULTY_MAX := 0x100_0000_0000_0000        // 1 << 56
  const DIFFICULTY_MIN := 0x1_0000_0000               // 1 << 32
  const DIFFICULTY_THRESHOLD := 0x100_0000_0000       // 1 << 40
  const TRANSITION_RATIO := 32
  const CENT := 1_000_000
  const MINT_LIMIT := 99_900_000_000                  // 999 COIN

  function Length(bits: nat): nat { bits / ONE }

  function Fraction(bits: nat): nat { bits % ONE }

  /** A target of at least the minimum length whose length can still be incremented. */
  predicate Valid(minLen: nat, bits: nat) {
    1 <= minLen <= Length(bits) <= 0xFE
  }

  function FractionalDifficulty(bits: nat): nat {
    DIFFICULTY_MAX / (ONE - Fraction(bits))
  }

  function SetFractionalDifficulty(difficulty: nat, bits: nat): Option<nat> {
    if difficulty < DIFFICULTY_MIN then None else
      var inverse := DIFFICULTY_MAX / difficulty;
      if inverse > ONE then None else
        // the length bits are kept; the fraction is or-ed into cleared bits
        Some(bits - Fraction(bits) + (ONE - inverse))
  }

  /** Division of the big-number library: truncates toward zero. */
  function TruncDiv(a: int, b: int): int
    requires b != 0
  {
    if (a >= 0) == (b > 0) then Abs(a) / Abs(b) else -(Abs(a) / Abs(b))
  }

  function Abs(a: int): nat { if a < 0 then -a else a }

  function Clamp(d: int): nat {
    if d > DIFFICULTY_MAX then DIFFICULTY_MAX else if d < DIFFICULTY_MIN then DIFFICULTY_MIN else d
  }

  function Denominator(interval: int, spacing: int, actual: int): int {
    (interval - 1) * spacing + actual + actual
  }

  function IncrementLength(bits: nat): nat { (bits + ONE) % WORD }

  function DecrementLength(minLen: nat, bits: nat): nat {
    if Length(bits) > minLen then bits - ONE else bits
  }

  /** The rounding of a new fractional difficulty into a target: step up past the
      threshold, step down at the minimum, otherwise stay at the same length. */
  function Settle(minLen: nat, bits: nat, difficulty: nat): Option<nat> {
    if difficulty > DIFFICULTY_THRESHOLD then
      SetFractionalDifficulty(DIFFICULTY_MIN, IncrementLength(bits))
    else if difficulty == DIFFICULTY_MIN && Length(bits) > minLen then
      SetFractionalDifficulty(DIFFICULTY_THRESHOLD, DecrementLength(minLen, bits))
    else
      SetFractionalDifficulty(difficulty, bits)
  }

  /** TargetGetNext. A zero denominator makes the big-number division throw. */
  datatype Next = Throws | Fails | Next(bits: nat)

  function TargetGetNext(minLen: nat, bits: nat, interval: int, spacing: int, actual: int): Next {
    var d := Denominator(interval, spacing, actual);
    if d == 0 then Throws else
      var difficulty := Clamp(TruncDiv(FractionalDifficulty(bits) * ((interval + 1) * spacing), d));
      match Settle(minLen, bits, difficulty)
      case None => Fails
      case Some(next) => Next(next)
  }

  // ---------- rounding there and back ----------

  lemma InverseOfInverse(m: nat, x: nat)
    requires 1 <= x && x * x < m
    ensures m / x > 0 && m / (m / x) == x
  {
    var q := m / x;
    assert q * x <= m < (q + 1) * x;
    if q < x {
      Products(q + 1, x, x, x);
    }
    assert m < q * x + x <= q * x + q == q * (x + 1);
    Quotient(m, q, x);
  }

  lemma Quotient(m: nat, q: nat, x: nat)
    requires q > 0 && q * x <= m < q * (x + 1)
    ensures m / q == x
  {
    var y := m / q;
    assert q * y <= m < q * (y + 1);
    if y < x {
      Products(q, q, y + 1, x);
    } else if y > x {
      Products(q, q, x + 1, y);
    }
  }

  lemma DifficultyRange(bits: nat)
    ensures DIFFICULTY_MIN <= FractionalDifficulty(bits) <= DIFFICULTY_MAX
    ensures FractionalDifficulty(bits) > DIFFICULTY_THRESHOLD <==> Fraction(bits) > MAX_FRACTION
    ensures FractionalDifficulty(bits) == DIFFICULTY_MIN <==> Fraction(bits) == 0
  {
    var x := ONE - Fraction(bits);
    QuotientAntitone(DIFFICULTY_MAX, x, ONE);
    QuotientAntitone(DIFFICULTY_MAX, 1, x);
    if x < 0x1_0000 {
      QuotientAntitone(DIFFICULTY_MAX, x, 0xFFFF);
    } else {
      QuotientAntitone(DIFFICULTY_MAX, 0x1_0000, x);
    }
    if x < ONE {
      QuotientAntitone(DIFFICULTY_MAX, x, ONE - 1);
    }
  }

  /** Reading the fractional difficulty of a target and writing it back changes nothing,
      for every target. */
  lemma GetThenSetIsIdentity(bits: nat)
    ensures SetFractionalDifficulty(FractionalDifficulty(bits), bits) == Some(bits)
  {
    var x := ONE - Fraction(bits);
    assert x * x <= ONE * ONE by { Products(x, ONE, x, ONE); }
    InverseOfInverse(DIFFICULTY_MAX, x);
    DifficultyRange(bits);
  }

  lemma Products(a: nat, b: nat, c: nat, d: nat)
    requires a <= b && c <= d
    ensures a * c <= b * d
  {
    assert a * c <= b * c <= b * d;
  }

  // ---------- retargeting ----------

  /** Every outcome of a retarget, by where the new difficulty falls. */
  lemma SettleOutcome(minLen: nat, bits: nat, difficulty: nat)
    requires Valid(minLen, bits) && DIFFICULTY_MIN <= difficulty <= DIFFICULTY_MAX
    ensures Settle(minLen, bits, difficulty).Some?
    ensures var next := Settle(minLen, bits, difficulty).value;
            && next < WORD && Length(next) >= minLen && Fraction(next) <= MAX_FRACTION
            && (if difficulty > DIFFICULTY_THRESHOLD then Length(next) == Length(bits) + 1 && Fraction(next) == 0
                else if difficulty == DIFFICULTY_MIN && Length(bits) > minLen
                then Length(next) == Length(bits) - 1 && Fraction(next) == MAX_FRACTION
                else Length(next) == Length(bits) && Fraction(next) == ONE - DIFFICULTY_MAX / difficulty)
  {
    if difficulty <= DIFFICULTY_THRESHOLD {
      assert 0x1_0000 <= DIFFICULTY_MAX / difficulty <= ONE by {
        QuotientAntitone(DIFFICULTY_MAX, difficulty, DIFFICULTY_THRESHOLD);
        QuotientAntitone(DIFFICULTY_MAX, DIFFICULTY_MIN, difficulty);
      }
    }
  }

  lemma QuotientAntitone(a: nat, b: nat, c: nat)
    requires 0 < b <= c
    ensures a / b >= a / c
  {
    Products(a, a, b, c);
    CrossMultiplied(a, c, a, b);
  }

  /** For every valid target and positive denominator the retarget succeeds, moves the
      length by at most one, never below the minimum, and keeps the fraction at or below
      the threshold's. */
  lemma RetargetIsValid(minLen: nat, bits: nat, interval: int, spacing: int, actual: int)
    requires Valid(minLen, bits) && interval >= 1 && spacing >= 1
    requires Denominator(interval, spacing, actual) != 0
    ensures var r := TargetGetNext(minLen, bits, interval, spacing, actual);
            && r.Next? && r.bits < WORD
            && minLen <= Length(r.bits) && Length(bits) - 1 <= Length(r.bits) <= Length(bits) + 1
            && Fraction(r.bits) <= MAX_FRACTION
  {
    var d := Denominator(interval, spacing, actual);
    SettleOutcome(minLen, bits, Clamp(TruncDiv(FractionalDifficulty(bits) * ((interval + 1) * spacing), d)));
  }

  lemma SettleMonotone(minLen: nat, bits: nat, d1: nat, d2: nat)
    requires Valid(minLen, bits) && DIFFICULTY_MIN <= d1 <= d2 <= DIFFICULTY_MAX
    ensures Settle(minLen, bits, d1).Some? && Settle(minLen, bits, d2).Some?
    ensures Settle(minLen, bits, d1).value <= Settle(minLen, bits, d2).value
  {
    SettleOutcome(minLen, bits, d1);
    SettleOutcome(minLen, bits, d2);
    QuotientAntitone(DIFFICULTY_MAX, d1, d2);
  }

  /** Faster blocks never lower the next target, as long as the smaller spacing leaves the
      denominator positive. */
  lemma FasterNeverEasier(minLen: nat, bits: nat, interval: int, spacing: int, fast: int, slow: int)
    requires Valid(minLen, bits) && interval >= 1 && spacing >= 1
    requires fast <= slow && Denominator(interval, spacing, fast) > 0
    ensures var f := TargetGetNext(minLen, bits, interval, spacing, fast);
            var s := TargetGetNext(minLen, bits, interval, spacing, slow);
            f.Next? && s.Next? && f.bits >= s.bits
  {
    var df, ds := Denominator(interval, spacing, fast), Denominator(interval, spacing, slow);
    var a := FractionalDifficulty(bits) * ((interval + 1) * spacing);
    NumeratorPositive(bits, interval, spacing);
    QuotientAntitone(a, df, ds);
    SettleMonotone(minLen, bits, Clamp(a / ds), Clamp(a / df));
  }

  lemma NumeratorPositive(bits: nat, interval: int, spacing: int)
    requires interval >= 1 && spacing >= 1
    ensures FractionalDifficulty(bits) * ((interval + 1) * spacing) > 0
  {
    DifficultyRange(bits);
    assert (interval + 1) * spacing > 0;
  }

  lemma NegativeQuotient(a: int, b: int)
    requires a >= 0 > b
    ensures TruncDiv(a, b) <= 0
  {
    QuotientAtLeast(a, -b, 0);
  }

  /** The positive denominator is needed: blocks so fast that it turns negative are
      treated like infinitely slow ones, so from then on being faster gives the lowest
      target instead of the highest. */
  lemma NegativeDenominatorIsEasiest(minLen: nat, bits: nat, interval: int, spacing: int, fast: int, slow: int)
    requires Valid(minLen, bits) && interval >= 1 && spacing >= 1
    requires Denominator(interval, spacing, fast) < 0 && Denominator(interval, spacing, slow) != 0
    ensures var f := TargetGetNext(minLen, bits, interval, spacing, fast);
            var s := TargetGetNext(minLen, bits, interval, spacing, slow);
            f.Next? && s.Next? && f.bits <= s.bits
  {
    var df, ds := Denominator(interval, spacing, fast), Denominator(interval, spacing, slow);
    var a := FractionalDifficulty(bits) * ((interval + 1) * spacing);
    hide Settle, Denominator, FractionalDifficulty;
    NumeratorPositive(bits, interval, spacing);
    NegativeQuotient(a, df);
    hide TruncDiv;
    SettleMonotone(minLen, bits, DIFFICULTY_MIN, Clamp(TruncDiv(a, ds)));
  }

  /** The target after the faster spacing is not below the one after the slower spacing. */
  predicate NotEasier(minLen: nat, bits: nat, interval: int, spacing: int, fast: int, slow: int) {
    var f, s := TargetGetNext(minLen, bits, interval, spacing, fast), TargetGetNext(minLen, bits, interval, spacing, slow);
    f.Next? && s.Next? && f.bits >= s.bits
  }

  /** Any difficulty above the minimum settles above it. */
  lemma AboveMinimum(minLen: nat, bits: nat, difficulty: nat)
    requires Valid(minLen, bits) && DIFFICULTY_MIN < difficulty <= DIFFICULTY_MAX
    ensures Settle(minLen, bits, DIFFICULTY_MIN).Some? && Settle(minLen, bits, difficulty).Some?
    ensures Settle(minLen, bits, DIFFICULTY_MIN).value < Settle(minLen, bits, difficulty).value
  {
    SettleOutcome(minLen, bits, DIFFICULTY_MIN);
    SettleOutcome(minLen, bits, difficulty);
    QuotientAntitone(DIFFICULTY_MAX, DIFFICULTY_MIN + 1, difficulty);
  }

  /** A slower spacing whose denominator is 1 or 2, and so one with a higher target. */
  lemma SlowerIsHarder(minLen: nat, bits: nat, interval: int, spacing: int, fast: int) returns (slow: int)
    requires Valid(minLen, bits) && interval >= 1 && spacing >= 1
    requires Denominator(interval, spacing, fast) < 0
    requires (interval + 1) * spacing >= 3 || Fraction(bits) > 0
    ensures slow >= fast && 1 <= Denominator(interval, spacing, slow) <= 2
    ensures !NotEasier(minLen, bits, interval, spacing, fast, slow)
  {
    hide Settle, FractionalDifficulty;
    var k, base := (interval + 1) * spacing, (interval - 1) * spacing;
    assert k == base + 2 * spacing && base >= 0;
    slow := if base % 2 == 0 then 1 - base / 2 else -(base / 2);
    var d := Denominator(interval, spacing, slow);
    assert d == 2 - base % 2;
    var fd := FractionalDifficulty(bits);
    DifficultyRange(bits);
    NegativeQuotient(fd * k, Denominator(interval, spacing, fast));
    HalfOfProduct(fd, k, d);
    AboveMinimum(minLen, bits, Clamp(fd * k / d));
  }

  lemma HalfOfProduct(fd: nat, k: nat, d: nat)
    requires fd >= DIFFICULTY_MIN && k >= 2 && 1 <= d <= 2
    requires k >= 3 || fd > DIFFICULTY_MIN
    ensures fd * k > 0 && fd * k / d > DIFFICULTY_MIN
  {
    if k >= 3 {
      Products(fd, fd, 3, k);
    } else {
      assert fd * k == fd * 2;
    }
  }

  /** When faster blocks never lower the next target, exactly: the denominator is positive.
      Below that every spacing but the slowest ones beats the fast one; only with a product
      of 2, where the target cannot rise, does a whole target not tell them apart. */
  lemma FasterNeverEasierIff(minLen: nat, bits: nat, interval: int, spacing: int, fast: int)
    requires Valid(minLen, bits) && interval >= 1 && spacing >= 1
    requires Denominator(interval, spacing, fast) != 0
    ensures (forall slow :: slow >= fast && Denominator(interval, spacing, slow) != 0 ==>
                              NotEasier(minLen, bits, interval, spacing, fast, slow))
            <==> Denominator(interval, spacing, fast) > 0 || ((interval + 1) * spacing == 2 && Fraction(bits) == 0)
  {
    hide TargetGetNext, Fraction, Denominator;
    if Denominator(interval, spacing, fast) > 0 {
      forall slow | slow >= fast && Denominator(interval, spacing, slow) != 0
        ensures NotEasier(minLen, bits, interval, spacing, fast, slow)
      {
        FasterNeverEasier(minLen, bits, interval, spacing, fast, slow);
      }
    } else if (interval + 1) * spacing == 2 && Fraction(bits) == 0 {
      forall slow | slow >= fast && Denominator(interval, spacing, slow) != 0
        ensures NotEasier(minLen, bits, interval, spacing, fast, slow)
      {
        AllAtMinimum(minLen, bits, interval, spacing, fast);
        AllAtMinimum(minLen, bits, interval, spacing, slow);
      }
    } else {
      AtLeastTwo(interval, spacing);
      var slow := SlowerIsHarder(minLen, bits, interval, spacing, fast);
    }
  }

  lemma AtLeastTwo(interval: int, spacing: int)
    requires interval >= 1 && spacing >= 1
    ensures (interval + 1) * spacing >= 2
  {
    Products(2, interval + 1, 1, spacing);
  }

  lemma AllAtMinimum(minLen: nat, bits: nat, interval: int, spacing: int, actual: int)
    requires Valid(minLen, bits) && interval >= 1 && spacing >= 1 && (interval + 1) * spacing == 2 && Fraction(bits) == 0
    requires Denominator(interval, spacing, actual) != 0
    ensures Settle(minLen, bits, DIFFICULTY_MIN).Some?
    ensures TargetGetNext(minLen, bits, interval, spacing, actual) == Next(Settle(minLen, bits, DIFFICULTY_MIN).value)
  {
    SettleOutcome(minLen, bits, DIFFICULTY_MIN);
    DifficultyRange(bits);
    hide Settle, FractionalDifficulty;
    assert interval == 1 && spacing == 1 by {
      Products(2, interval + 1, 1, spacing);
      Products(interval + 1, interval + 1, 1, spacing);
      Products(2, interval + 1, spacing, spacing);
    }
    var d := Denominator(interval, spacing, actual);
    assert d == 2 * actual;
    if d < 0 {
      NegativeQuotient(DIFFICULTY_MIN * 2, d);
    } else {
      QuotientAntitone(DIFFICULTY_MIN * 2, 2, d);
    }
  }

  lemma VeryFastBlocksLowerTheTarget()
    ensures TargetGetNext(6, 0x800_0000, 10080, 60, -302371) == Next(0x7FF_0000)
    ensures TargetGetNext(6, 0x800_0000, 10080, 60, -302369) == Next(0x900_0000)
  {
    assert FractionalDifficulty(0x800_0000) == DIFFICULTY_MIN;
    assert Denominator(10080, 60, -302371) == -2;
    assert Denominator(10080, 60, -302369) == 2;
  }

  lemma CancelQuotient(a: nat, b: nat)
    requires b > 0
    ensures a * b / b == a
  {
    Quotient(a * b, b, a);
  }

  /** At exactly the intended spacing a target is kept if and only if its fraction is in
      (0, MAX_FRACTION], or it is the minimum target. */
  lemma ExactSpacingKeepsTarget(minLen: nat, bits: nat, interval: int, spacing: int)
    requires Valid(minLen, bits) && interval >= 1 && spacing >= 1
    ensures TargetGetNext(minLen, bits, interval, spacing, spacing) == Next(bits)
            <==> 0 < Fraction(bits) <= MAX_FRACTION || bits == minLen * ONE
  {
    var k := (interval + 1) * spacing;
    var d := FractionalDifficulty(bits);
    assert Denominator(interval, spacing, spacing) == k;
    NumeratorPositive(bits, interval, spacing);
    CancelQuotient(d, k);
    DifficultyRange(bits);
    assert Clamp(TruncDiv(d * k, k)) == d;
    GetThenSetIsIdentity(bits);
    SettleOutcome(minLen, bits, d);
  }

  // ---------- mint ----------

  /** The limit divided by the target, as fixed-point numbers. */
  function PerTarget(limit: nat, bits: nat): nat
    requires bits > 0
  {
    limit * ONE / bits
  }

  function WholeCents(amount: nat): nat { amount / CENT * CENT }

  /** TargetGetMint: success flag and value. */
  function TargetGetMint(minLen: nat, bits: nat): (bool, nat) {
    if Length(bits) < minLen || bits == 0 then (false, 0) else
      var rounded := WholeCents(PerTarget(PerTarget(MINT_LIMIT, bits), bits));
      if rounded > MINT_LIMIT then (false, 0) else (true, rounded)
  }

  lemma PerTargetTimes(limit: nat, bits: nat)
    requires bits > 0
    ensures PerTarget(limit, bits) * bits <= limit * ONE
  {
    FloorTimes(limit * ONE, bits);
  }

  lemma FloorTimes(a: nat, b: nat)
    requires b > 0
    ensures a / b * b <= a
  {
  }

  lemma WholeCentsFacts(amount: nat)
    ensures WholeCents(amount) % CENT == 0 && WholeCents(amount) <= amount
  {
  }

  /** The mint of a valid target is a whole number of cents, at most
      999 COIN / (target length squared): the over-limit exit is never taken. */
  lemma MintBound(minLen: nat, bits: nat)
    requires 1 <= minLen <= Length(bits)
    ensures TargetGetMint(minLen, bits).0
    ensures var mint := TargetGetMint(minLen, bits).1;
            mint % CENT == 0 && mint <= MINT_LIMIT && mint * bits * bits <= MINT_LIMIT * ONE * ONE
  {
    hide PerTarget, WholeCents;
    AtLeastOne(bits);
    var once := PerTarget(MINT_LIMIT, bits);
    var twice := PerTarget(once, bits);
    var rounded := WholeCents(twice);
    PerTargetTimes(MINT_LIMIT, bits);
    PerTargetTimes(once, bits);
    WholeCentsFacts(twice);
    TwoFloors(MINT_LIMIT, once, twice, bits);
    Products(rounded, twice, bits, bits);
    Products(rounded * bits, twice * bits, bits, bits);
  }

  lemma AtLeastOne(bits: nat)
    requires Length(bits) >= 1
    ensures bits >= ONE
  {
  }

  lemma TwoFloors(limit: nat, once: nat, twice: nat, bits: nat)
    requires bits >= ONE && once * bits <= limit * ONE && twice * bits <= once * ONE
    ensures twice * bits * bits <= limit * ONE * ONE && twice <= limit
  {
    calc {
      twice * bits * bits;
    <= { Products(twice * bits, once * ONE, bits, bits); }
      once * ONE * bits;
    ==
      once * bits * ONE;
    <=
      limit * ONE * ONE;
    }
    Products(once, once, ONE, bits);
    Products(twice, twice, ONE, bits);
  }

  /** A harder target never mints more. */
  lemma MintAntitone(minLen: nat, easy: nat, hard: nat)
    requires 1 <= minLen <= Length(easy) && easy <= hard
    ensures TargetGetMint(minLen, hard).1 <= TargetGetMint(minLen, easy).1
  {
    hide PerTarget, WholeCents;
    MintBound(minLen, easy);
    QuotientMonotone(easy, hard, ONE);
    MintBound(minLen, hard);
    AtLeastOne(easy);
    var oe, oh := PerTarget(MINT_LIMIT, easy), PerTarget(MINT_LIMIT, hard);
    PerTargetAntitone(MINT_LIMIT, MINT_LIMIT, easy, hard);
    PerTargetAntitone(oh, oe, easy, hard);
    WholeCentsMonotone(PerTarget(oh, hard), PerTarget(oe, easy));
  }

  lemma PerTargetAntitone(less: nat, more: nat, easy: nat, hard: nat)
    requires less <= more && 0 < easy <= hard
    ensures PerTarget(less, hard) <= PerTarget(more, easy)
  {
    QuotientAntitone(less * ONE, easy, hard);
    QuotientMonotone(less * ONE, more * ONE, easy);
  }

  lemma WholeCentsMonotone(a: nat, b: nat)
    requires a <= b
    ensures WholeCents(a) <= WholeCents(b)
  {
    QuotientMonotone(a, b, CENT);
  }

  lemma QuotientMonotone(a: nat, b: nat, c: nat)
    requires a <= b && c > 0
    ensures a / c <= b / c
  {
    CrossMultiplied(a, c, b, c);
  }

  // ---------- work ----------

  function RatioPower(k: nat): (r: nat)
    ensures r >= 1
  {
    if k == 0 then 1 else TRANSITION_RATIO * RatioPower(k - 1)
  }

  function Extra(minLen: nat, bits: nat): nat {
    if Length(bits) > minLen then Length(bits) - minLen else 0
  }

  function BlockWork(minLen: nat, bits: nat): nat {
    var d := FractionalDifficulty(bits);
    256 * RatioPower(Extra(minLen, bits)) * (TRANSITION_RATIO * d) / ((TRANSITION_RATIO - 1) * DIFFICULTY_MIN + d)
  }

  method GetBlockWork(minLen: nat, bits: nat) returns (work: nat)
    ensures work == BlockWork(minLen, bits)
  {
    var d := FractionalDifficulty(bits);
    work := 256;
    var count := minLen;
    while count < Length(bits)
      invariant minLen <= count && (count <= Length(bits) || count == minLen)
      invariant work == 256 * RatioPower(count - minLen)
    {
      work := work * TRANSITION_RATIO;
      count := count + 1;
    }
    work := work * (TRANSITION_RATIO * d);
    work := work / ((TRANSITION_RATIO - 1) * DIFFICULTY_MIN + d);
  }

  lemma CrossMultiplied(a: nat, b: nat, c: nat, d: nat)
    requires b > 0 && d > 0 && a * d <= c * b
    ensures a / b <= c / d
  {
    var q := a / b;
    FloorTimes(a, b);
    Products(q * b, a, d, d);
    assert q * d * b == q * b * d;
    if q * d > c {
      Products(c + 1, q * d, b, b);
    }
    QuotientAtLeast(c, d, q);
  }

  lemma QuotientAtLeast(a: nat, b: nat, q: nat)
    requires b > 0 && q * b <= a
    ensures a / b >= q
  {
    if a / b < q {
      Products(a / b + 1, q, b, b);
    }
  }

  /** With scale c and offset o, c * x / (o + x) grows with x. */
  lemma ShareMonotone(c: nat, o: nat, x: nat, y: nat)
    requires o > 0 && x <= y
    ensures c * x / (o + x) <= c * y / (o + y)
  {
    assert c * x * (o + y) == c * x * o + c * x * y;
    assert c * y * (o + x) == c * y * o + c * y * x;
    assert c * x * y == c * y * x;
    assert c * x * o <= c * y * o by { Products(c * x, c * y, o, o); Products(c, c, x, y); }
    CrossMultiplied(c * x, o + x, c * y, o + y);
  }

  lemma ShareBelowScale(c: nat, o: nat, x: nat)
    requires o > 0
    ensures c * x / (o + x) <= c
  {
    assert c * x * 1 <= c * (o + x) by { Products(c, c, x, o + x); }
    CrossMultiplied(c * x, o + x, c, 1);
  }

  /** The work of a target lies between the powers that bound its length. */
  lemma WorkBetweenPowers(minLen: nat, bits: nat)
    ensures 256 * RatioPower(Extra(minLen, bits)) <= BlockWork(minLen, bits) <= 256 * RatioPower(Extra(minLen, bits) + 1)
    ensures BlockWork(minLen, bits) >= 256
  {
    var p := 256 * RatioPower(Extra(minLen, bits));
    var c := p * TRANSITION_RATIO;
    var o := (TRANSITION_RATIO - 1) * DIFFICULTY_MIN;
    var d := FractionalDifficulty(bits);
    DifficultyRange(bits);
    assert p * (TRANSITION_RATIO * d) == c * d;
    ShareMonotone(c, o, DIFFICULTY_MIN, d);
    ShareBelowScale(c, o, d);
    assert c * DIFFICULTY_MIN == p * (TRANSITION_RATIO * DIFFICULTY_MIN);
    CancelQuotient(p, TRANSITION_RATIO * DIFFICULTY_MIN);
  }

  lemma {:induction false} RatioPowerMonotone(j: nat, k: nat)
    requires j <= k
    ensures RatioPower(j) <= RatioPower(k)
  {
    if j < k {
      RatioPowerMonotone(j, k - 1);
    }
  }

  /** A higher target never counts for less work, also across length boundaries. */
  lemma WorkMonotone(minLen: nat, low: nat, high: nat)
    requires minLen <= Length(low) && low <= high
    ensures BlockWork(minLen, low) <= BlockWork(minLen, high)
  {
    assert Length(low) <= Length(high);
    var dl, dh := FractionalDifficulty(low), FractionalDifficulty(high);
    if Length(low) == Length(high) {
      assert Fraction(low) <= Fraction(high);
      QuotientAntitone(DIFFICULTY_MAX, ONE - Fraction(high), ONE - Fraction(low));
      var p := 256 * RatioPower(Extra(minLen, low));
      assert p * (TRANSITION_RATIO * dl) == p * TRANSITION_RATIO * dl;
      assert p * (TRANSITION_RATIO * dh) == p * TRANSITION_RATIO * dh;
      ShareMonotone(p * TRANSITION_RATIO, (TRANSITION_RATIO - 1) * DIFFICULTY_MIN, dl, dh);
    } else {
      WorkBetweenPowers(minLen, low);
      WorkBetweenPowers(minLen, high);
      RatioPowerMonotone(Extra(minLen, low) + 1, Extra(minLen, high));
    }
  }

  const WORTH_NOTHING := 67386                       // the highest fraction that adds no unit of work

  lemma WorkOfFraction(minLen: nat, bits: nat)
    requires Length(bits) <= minLen
    ensures BlockWork(minLen, bits) == 256 <==> Fraction(bits) <= WORTH_NOTHING
  {
    WorkBetweenPowers(minLen, bits);
    var x, d := ONE - Fraction(bits), FractionalDifficulty(bits);
    var o := 31 * DIFFICULTY_MIN;
    assert BlockWork(minLen, bits) == 8192 * d / (o + d) by {
      assert RatioPower(0) == 1;
    }
    hide BlockWork;
    if Fraction(bits) <= WORTH_NOTHING {
      QuotientAntitone(DIFFICULTY_MAX, ONE - WORTH_NOTHING, x);
      ShareMonotone(8192, o, d, DIFFICULTY_MAX / (ONE - WORTH_NOTHING));
    } else {
      QuotientAntitone(DIFFICULTY_MAX, x, ONE - WORTH_NOTHING - 1);
      ShareMonotone(8192, o, DIFFICULTY_MAX / (ONE - WORTH_NOTHING - 1), d);
    }
  }

  /** When no higher target counts for less work, exactly: the target has the minimum length,
      or its fraction is too small to count. Below the minimum lengths no longer count, and the
      next whole target is worth less. */
  lemma WorkMonotoneIff(minLen: nat, low: nat)
    ensures (forall high :: high >= low ==> BlockWork(minLen, low) <= BlockWork(minLen, high))
            <==> Length(low) >= minLen || Fraction(low) <= WORTH_NOTHING
  {
    hide BlockWork;
    if Length(low) >= minLen {
      forall high | high >= low ensures BlockWork(minLen, low) <= BlockWork(minLen, high) {
        WorkMonotone(minLen, low, high);
      }
    } else {
      WorkOfFraction(minLen, low);
      forall high ensures BlockWork(minLen, high) >= 256 {
        WorkBetweenPowers(minLen, high);
      }
      var whole := (Length(low) + 1) * ONE;
      assert whole >= low;
      WorkOfFraction(minLen, whole);
    }
  }
}
