/** Divisibility, primes and inverses modulo a prime, and the table of small primes.
    (src/prime.cpp, GeneratePrimeTable) */
module Primes {
  import opened Basics

  predicate Divides(d: int, n: int)
    requires d > 0
  {
    n % d == 0
  }

  lemma SmallMultiple(d: int, j: int)
    requires d > 0 && 0 <= d * j < d
    ensures j == 0
  {
    if j >= 1 {
      Scaled(1, j, d);
    } else if j <= -1 {
      Scaled(j, -1, d);
    }
  }

  lemma IsMultiple(d: int, k: int, n: int)
    requires d > 0 && n == d * k
    ensures Divides(d, n)
  {
    DivMod(n, d, k, 0);
  }

  lemma DividesTransitive(a: int, b: int, c: int)
    requires a > 0 && b > 0 && Divides(a, b) && Divides(b, c)
    ensures Divides(a, c)
  {
    var j, k := b / a, c / b;
    assert b == a * j && c == b * k;
    assert c == a * (j * k);
    IsMultiple(a, j * k, c);
  }

  lemma DividesSum(d: int, a: int, b: int)
    requires d > 0 && Divides(d, a)
    ensures Divides(d, a + b) <==> Divides(d, b)
  {
    var k := a / d;
    assert a == d * k;
    if Divides(d, b) {
      var j := b / d;
      assert a + b == d * (k + j);
      IsMultiple(d, k + j, a + b);
    }
    if Divides(d, a + b) {
      var j := (a + b) / d;
      assert b == d * (j - k);
      IsMultiple(d, j - k, b);
    }
  }

  lemma DividesProduct(d: int, a: int, b: int)
    requires d > 0 && Divides(d, a)
    ensures Divides(d, a * b)
  {
    var k := a / d;
    assert a == d * k;
    assert a * b == d * (k * b);
    IsMultiple(d, k * b, a * b);
  }

  predicate IsPrime(n: int) {
    n >= 2 && forall d :: 2 <= d < n ==> !Divides(d, n)
  }

  // ---------- the table ----------

  /** n has a divisor below bound whose square does not exceed n. */
  ghost predicate SmallDivisor(n: int, bound: int) {
    exists d :: 2 <= d < bound && d * d <= n && Divides(d, n)
  }

  /** A composite number has a divisor not above its square root. */
  lemma CompositeHasSmallDivisor(n: int) returns (d: int)
    requires n >= 2 && !IsPrime(n)
    ensures 2 <= d && d * d <= n && Divides(d, n)
  {
    var a :| 2 <= a < n && Divides(a, n);
    var b := n / a;
    Cofactor(n, a, b);
    d := if a <= b then a else b;
  }

  lemma Cofactor(n: int, a: int, b: int)
    requires 2 <= a < n && Divides(a, n) && b == n / a
    ensures b >= 2 && Divides(b, n)
    ensures a <= b ==> a * a <= n
    ensures b <= a ==> b * b <= n
  {
    hide Divides;
    CofactorTimes(n, a, b);
    if b <= 1 {
      Scaled(b, 1, a);
    }
    IsMultiple(b, a, n);
    if a <= b {
      Scaled(a, b, a);
    } else {
      Scaled(b, a, b);
    }
  }

  lemma CofactorTimes(n: int, a: int, b: int)
    requires a > 0 && Divides(a, n) && b == n / a
    ensures n == a * b == b * a
  {
  }

  lemma SmallDivisorMeansComposite(n: int, d: int)
    requires 2 <= d && d * d <= n && Divides(d, n)
    ensures !IsPrime(n)
  {
    assert d < n by {
      assert d * d >= 2 * d;
    }
  }

  /** Skipping a factor that is itself composite loses nothing. */
  lemma SkipComposite(n: int, f: int)
    requires 2 <= f && SmallDivisor(f, f)
    ensures SmallDivisor(n, f + 1) <==> SmallDivisor(n, f)
  {
    hide Divides;
    if SmallDivisor(n, f + 1) {
      var d :| 2 <= d < f + 1 && d * d <= n && Divides(d, n);
      if d == f {
        var e :| 2 <= e < f && e * e <= f && Divides(e, f);
        SmallerDivisor(n, f, e);
      }
    }
  }

  lemma SmallerDivisor(n: int, f: int, e: int)
    requires 2 <= e < f && e * e <= f && Divides(e, f) && f * f <= n && Divides(f, n)
    ensures SmallDivisor(n, f)
  {
    hide Divides;
    DividesTransitive(e, f, n);
    Scaled(1, f, f);
  }

  /** Marks every multiple of factor from its square on. */
  method MarkMultiples(composite: array<bool>, factor: int)
    requires factor >= 2
    modifies composite
    ensures forall m :: 0 <= m < composite.Length ==>
              (composite[m] <==> old(composite[m]) || (m >= factor * factor && Divides(factor, m)))
  {
    var n := factor * factor;
    ghost var k := factor;
    ghost var was := composite[..];
    while n < composite.Length
      invariant n == factor * k && n >= factor * factor
      invariant forall m :: 0 <= m < composite.Length ==>
                  (composite[m] <==> was[m] || (factor * factor <= m < n && Divides(factor, m)))
      decreases composite.Length - n
    {
      composite[n] := true;
      IsMultiple(factor, k, n);
      forall m | n < m < n + factor ensures !Divides(factor, m) {
        BetweenMultiples(factor, k, m);
      }
      n := n + factor;
      k := k + 1;
      assert factor * k == factor * (k - 1) + factor;
    }
  }

  lemma BetweenMultiples(d: int, k: int, m: int)
    requires d > 0 && d * k < m < d * k + d
    ensures !Divides(d, m)
  {
    if Divides(d, m) {
      var j := m / d;
      assert m == d * j;
      assert d * (j - k) == m - d * k;
      SmallMultiple(d, j - k);
    }
  }

  /** The sieve of Eratosthenes: the table is exactly the primes below the limit, ascending. */
  method GeneratePrimeTable(limit: nat) returns (primes: seq<int>)
    ensures forall i, j :: 0 <= i < j < |primes| ==> primes[i] < primes[j]
    ensures forall n :: n in primes <==> 0 <= n < limit && IsPrime(n)
  {
    hide IsPrime, Divides;
    var composite := new bool[limit](_ => false);
    var factor := 2;
    while factor * factor < limit
      invariant factor >= 2
      invariant forall m :: 0 <= m < limit ==> (composite[m] <==> SmallDivisor(m, factor))
      decreases limit - factor
    {
      FactorBelow(factor, limit);
      if composite[factor] {
        forall m | 0 <= m < limit ensures SmallDivisor(m, factor + 1) <==> SmallDivisor(m, factor) {
          SkipComposite(m, factor);
        }
      } else {
        MarkMultiples(composite, factor);
        forall m | 0 <= m < limit
          ensures SmallDivisor(m, factor + 1) <==> SmallDivisor(m, factor) || (m >= factor * factor && Divides(factor, m))
        {
          OneMoreFactor(m, factor);
        }
      }
      factor := factor + 1;
    }
    forall m | 2 <= m < limit ensures composite[m] <==> !IsPrime(m) {
      SievedIffComposite(m, factor, limit);
    }
    primes := [];
    NoPrimeBelowTwo();
    var n := 2;
    while n < limit
      invariant 2 <= n && (n <= limit || n == 2)
      invariant forall i, j :: 0 <= i < j < |primes| ==> primes[i] < primes[j]
      invariant forall i :: 0 <= i < |primes| ==> primes[i] < n
      invariant forall m :: m in primes <==> 0 <= m < n && m < limit && IsPrime(m)
    {
      if !composite[n] {
        primes := primes + [n];
      }
      n := n + 1;
    }
  }

  lemma FactorBelow(factor: int, limit: int)
    requires factor >= 2 && factor * factor < limit
    ensures factor < limit
  {
    assert factor * factor >= 2 * factor;
  }

  lemma NoPrimeBelowTwo()
    ensures forall m :: m < 2 ==> !IsPrime(m)
  {
  }

  lemma OneMoreFactor(m: int, f: int)
    requires f >= 2
    ensures SmallDivisor(m, f + 1) <==> SmallDivisor(m, f) || (m >= f * f && Divides(f, m))
  {
  }

  lemma SievedIffComposite(m: int, factor: int, limit: int)
    requires 2 <= m < limit <= factor * factor && factor >= 2
    ensures SmallDivisor(m, factor) <==> !IsPrime(m)
  {
    hide IsPrime, Divides;
    if SmallDivisor(m, factor) {
      var d :| 2 <= d < factor && d * d <= m && Divides(d, m);
      SmallDivisorMeansComposite(m, d);
    }
    if !IsPrime(m) {
      var d := CompositeHasSmallDivisor(m);
      if d >= factor {
        Scaled(factor, d, d);
        Scaled(factor, d, factor);
      }
    }
  }

  // ---------- inverses modulo a prime ----------

  predicate IsInverse(a: int, x: int, p: int)
    requires p > 0
  {
    Divides(p, a * x - 1)
  }

  /** Every number a prime does not divide has an inverse modulo it: descend from a to the
      remainder of p by a. */
  lemma {:induction false} InverseExists(a: int, p: int) returns (x: int)
    requires IsPrime(p) && 0 < a < p
    ensures IsInverse(a, x, p)
    decreases a
  {
    if a == 1 {
      x := 1;
      IsMultiple(p, 0, a * x - 1);
    } else {
      var q, s := p / a, p % a;
      assert p == q * a + s;
      assert !Divides(a, p);
      var y := InverseExists(s, p);
      x := -(q * y);
      // a * x = -(q * a) * y = (s - p) * y, and s * y is 1 modulo p
      assert a * x - 1 == (s * y - 1) + p * (-y) by {
        assert a * x == -((q * a) * y);
        assert (q * a) * y == (p - s) * y;
        assert (p - s) * y == p * y - s * y;
      }
      IsMultiple(p, -y, p * (-y));
      DividesSum(p, p * (-y), s * y - 1);
    }
  }

  lemma InverseOf(a: int, p: int) returns (x: int)
    requires IsPrime(p) && !Divides(p, a)
    ensures IsInverse(a, x, p)
  {
    var r, k := a % p, a / p;
    x := InverseExists(r, p);
    assert a * x - 1 == (r * x - 1) + p * (k * x) by {
      assert a == p * k + r;
      assert a * x == p * k * x + r * x;
      assert p * k * x == p * (k * x);
    }
    IsMultiple(p, k * x, p * (k * x));
    DividesSum(p, p * (k * x), r * x - 1);
  }

  /** BN_mod_inverse: an inverse in [0, p), or nothing if there is none. */
  method ModInverse(a: int, p: int) returns (found: bool, x: int)
    requires p >= 1
    ensures found ==> 0 <= x < p && IsInverse(a, x, p)
    ensures !found ==> forall y :: 0 <= y < p ==> !IsInverse(a, y, p)
  {
    if y :| 0 <= y < p && IsInverse(a, y, p) {
      return true, y;
    }
    return false, 0;
  }

  /** For a prime that does not divide a, it succeeds. */
  lemma InverseInRange(a: int, p: int)
    requires IsPrime(p) && !Divides(p, a)
    ensures exists y :: 0 <= y < p && IsInverse(a, y, p)
  {
    var x := InverseOf(a, p);
    var y, k := x % p, x / p;
    assert x == p * k + y;
    assert a * y - 1 == (a * x - 1) + p * (-(a * k)) by {
      assert a * x == a * (p * k) + a * y;
      assert a * (p * k) == p * (a * k);
    }
    IsMultiple(p, -(a * k), p * (-(a * k)));
    DividesSum(p, p * (-(a * k)), a * x - 1);
    assert IsInverse(a, y, p);
  }
}
