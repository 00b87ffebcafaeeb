/** Definitions and arithmetic facts the other modules share. */
module Basics {

  type Byte = b: nat | b < 256

  datatype Option<T> = None | Some(value: T)

  type Hash = nat

  const MAX_MONEY := 200_000_000_000_000_000           // 2000000000 * COIN

  const WORD := 0x1_0000_0000                          // unsigned int is 32 bits wide

  const MAX_SIZE := 0x0200_0000                        // of anything read from a stream

  function Min(a: int, b: int): int { if a < b then a else b }

  function Pow2(k: nat): (r: nat)
    ensures r >= 1
  {
    if k == 0 then 1 else 2 * Pow2(k - 1)
  }

  ghost predicate Distinct(s: seq<int>) {
    forall p, q :: 0 <= p < q < |s| ==> s[p] != s[q]
  }

  lemma EmptySet(s: set<int>)
    requires forall x :: x !in s
    ensures s == {}
  {
    forall x ensures x in s <==> x in s - s {
    }
  }

  lemma Inhabited(s: set<int>)
    requires s != {}
    ensures exists x :: x in s
  {
    if forall x :: x !in s {
      EmptySet(s);
    }
  }

  // ---------- little-endian words ----------

  /** The low k bytes of n, least significant first. */
  function Little(n: nat, k: nat): (s: seq<Byte>)
    ensures |s| == k
  {
    if k == 0 then [] else [n % 256] + Little(n / 256, k - 1)
  }

  function FromLittle(s: seq<Byte>): nat {
    if s == [] then 0 else s[0] + 256 * FromLittle(s[1..])
  }

  lemma {:induction false} LittleRoundTrip(n: nat, k: nat)
    ensures FromLittle(Little(n, k)) == n <==> n < Pow2(8 * k)
    ensures FromLittle(Little(n, k)) < Pow2(8 * k)
    decreases k
  {
    if k > 0 {
      var s := Little(n, k);
      assert s[1..] == Little(n / 256, k - 1);
      LittleRoundTrip(n / 256, k - 1);
      Pow2Byte(k - 1);
    }
  }

  lemma Pow2Byte(k: nat)
    ensures Pow2(8 * (k + 1)) == 256 * Pow2(8 * k)
  {
    var e := 8 * k;
    assert Pow2(e + 2) == 4 * Pow2(e) && Pow2(e + 4) == 4 * Pow2(e + 2);
    assert Pow2(e + 6) == 4 * Pow2(e + 4) && Pow2(e + 8) == 4 * Pow2(e + 6);
  }

  lemma Scaled(a: int, b: int, c: int)
    requires a <= b && c >= 0
    ensures a * c <= b * c
  {
  }

  /** Quotient and remainder are unique. */
  lemma DivMod(n: int, d: int, q: int, r: int)
    requires d > 0 && 0 <= r < d && n == d * q + r
    ensures n / d == q && n % d == r
  {
    var x := n / d - q;
    assert n == d * (n / d) + n % d;
    assert d * x == r - n % d;
    if x >= 1 {
      AtLeastOnce(d, x);
    } else if x <= -1 {
      AtLeastOnce(d, -x);
    }
  }

  lemma AtLeastOnce(d: int, x: int)
    requires d > 0 && x >= 1
    ensures d * x >= d && d * -x <= -d
  {
    assert d * x == d + d * (x - 1);
  }
}
