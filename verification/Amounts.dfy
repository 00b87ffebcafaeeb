/** Compression of amounts: trailing decimal zeros are folded into one digit.
    (src/main.cpp, CTxOutCompressor::CompressAmount and DecompressAmount) */
module Amounts {
  import opened Basics

  const WORD64 := 0x1_0000_0000_0000_0000              // uint64

  function Pow10(e: nat): (p: nat)
    ensures p >= 1
  {
    if e == 0 then 1 else 10 * Pow10(e - 1)
  }

  /** Drops trailing zeros until nine have been dropped in all. */
  function Strip(n: nat, e: nat): (r: (nat, nat))
    requires n > 0 && e <= 9
    decreases 9 - e
  {
    if n % 10 == 0 && e < 9 then Strip(n / 10, e + 1) else (n, e)
  }

  /** The code of significant part q and exponent e. */
  function Code(q: nat, e: nat): int {
    if e < 9 then 1 + (q / 10 * 9 + q % 10 - 1) * 10 + e else 1 + (q - 1) * 10 + 9
  }

  function Compress(n: nat): int {
    if n == 0 then 0 else var (q, e) := Strip(n, 0); Code(q, e)
  }

  function Significant(x: nat): nat
    requires x > 0
  {
    var z := (x - 1) / 10;
    if (x - 1) % 10 < 9 then z / 9 * 10 + z % 9 + 1 else z + 1
  }

  function Decompress(x: nat): nat {
    if x == 0 then 0 else Significant(x) * Pow10((x - 1) % 10)
  }

  // ---------- the bijection ----------

  lemma TimesTen(a: int, b: int)
    ensures a * (10 * b) == 10 * (a * b) == a * 10 * b
  {
  }

  /** One zero more. */
  lemma Shift(q: nat, k: nat)
    requires k > 0
    ensures q * Pow10(k) == 10 * (q * Pow10(k - 1)) == q * 10 * Pow10(k - 1)
  {
    TimesTen(q, Pow10(k - 1));
  }

  lemma DropZero(n: nat)
    requires n > 0 && n % 10 == 0
    ensures n / 10 > 0 && n == 10 * (n / 10)
  {
  }

  lemma AddZero(n: nat)
    ensures (10 * n) % 10 == 0 && (10 * n) / 10 == n
  {
  }

  lemma {:induction false} StripFacts(n: nat, e: nat)
    requires n > 0 && e <= 9
    ensures var (q, f) := Strip(n, e);
            e <= f <= 9 && q > 0 && n == q * Pow10(f - e) && (f < 9 ==> q % 10 != 0)
    decreases 9 - e
  {
    hide Pow10;
    if n % 10 == 0 && e < 9 {
      DropZero(n);
      StripFacts(n / 10, e + 1);
      var (q, f) := Strip(n / 10, e + 1);
      Shift(q, f - e);
    } else {
      NoZeros(n);
    }
  }

  lemma NoZeros(n: nat)
    ensures n * Pow10(0) == n
  {
  }

  /** Stripping finds the zeros that were put on. */
  lemma {:induction false} StripPower(q: nat, k: nat, e: nat)
    requires q > 0 && e + k <= 9 && (e + k < 9 ==> q % 10 != 0)
    ensures q * Pow10(k) > 0 && Strip(q * Pow10(k), e) == (q, e + k)
    decreases k
  {
    hide Pow10;
    if k > 0 {
      StripPower(q, k - 1, e + 1);
      Shift(q, k);
      AddZero(q * Pow10(k - 1));
    } else {
      NoZeros(q);
    }
  }

  lemma CodeIsPositive(q: nat, e: nat)
    requires q > 0 && e <= 9 && (e < 9 ==> q % 10 != 0)
    ensures Code(q, e) > 0
    ensures (Code(q, e) - 1) % 10 == e && Significant(Code(q, e)) == q
  {
    var x := Code(q, e);
    if e < 9 {
      var d, h := q % 10, q / 10;
      var z := h * 9 + d - 1;
      DivMod(x - 1, 10, z, e);
      DivMod(z, 9, h, d - 1);
      assert q == 10 * h + d;
    } else {
      DivMod(x - 1, 10, q - 1, 9);
    }
  }

  /** Decompressing undoes compressing, for every amount. */
  lemma DecompressCompress(n: nat)
    ensures Compress(n) >= 0 && Decompress(Compress(n)) == n
  {
    if n > 0 {
      var (q, e) := Strip(n, 0);
      StripFacts(n, 0);
      CodeIsPositive(q, e);
    }
  }

  /** Compressing undoes decompressing, for every code: there is exactly one code per amount. */
  lemma CompressDecompress(x: nat)
    ensures Compress(Decompress(x)) == x
  {
    if x > 0 {
      var e, z := (x - 1) % 10, (x - 1) / 10;
      var q := Significant(x);
      assert x - 1 == 10 * z + e;
      if e < 9 {
        var h, d := z / 9, z % 9;
        assert z == 9 * h + d;
        DivMod(q, 10, h, d + 1);
      }
      StripPower(q, e, 0);
      assert Code(q, e) == x;
    }
  }

  /** Codes of amounts in the money range fit a 64-bit word. */
  lemma NoWrap(n: nat)
    requires n <= MAX_MONEY
    ensures 0 <= Compress(n) < WORD64
  {
    if n > 0 {
      var (q, e) := Strip(n, 0);
      StripFacts(n, 0);
      CodeIsPositive(q, e);
      assert q <= n by {
        Grows(q, Pow10(e));
      }
    }
  }

  lemma Grows(q: nat, p: nat)
    requires p >= 1
    ensures q <= q * p
  {
    assert q * p == q + q * (p - 1);
  }

  // ---------- the code ----------

  /** On 64-bit words: the result wraps where the code does not fit. */
  method CompressAmount(amount: nat) returns (r: nat)
    requires amount < WORD64
    ensures r == Compress(amount) % WORD64
    ensures amount <= MAX_MONEY ==> r == Compress(amount)
  {
    hide Strip, Code;
    if amount <= MAX_MONEY {
      NoWrap(amount);
    }
    if amount == 0 {
      return 0;
    }
    StripFacts(amount, 0);
    var n, e := StripZeros(amount);
    r := EncodeParts(n, e);
  }

  method EncodeParts(q: nat, e: nat) returns (r: nat)
    ensures r == Code(q, e) % WORD64
  {
    var n := q;
    if e < 9 {
      var d := n % 10;
      n := n / 10;
      r := (1 + (n * 9 + d - 1) * 10 + e) % WORD64;
    } else {
      r := (1 + (n - 1) * 10 + 9) % WORD64;
    }
  }

  method StripZeros(amount: nat) returns (n: nat, e: nat)
    requires amount > 0
    ensures (n, e) == Strip(amount, 0) && e <= 9
  {
    n, e := amount, 0;
    while n % 10 == 0 && e < 9
      invariant 0 <= e <= 9 && n > 0 && Strip(n, e) == Strip(amount, 0)
      decreases 9 - e
    {
      n := n / 10;
      e := e + 1;
    }
  }

  /** On 64-bit words: the result wraps where the amount does not fit. */
  method DecompressAmount(code: nat) returns (n: nat)
    requires code < WORD64
    ensures n == Decompress(code) % WORD64
    ensures Decompress(code) < WORD64 ==> n == Decompress(code)
  {
    hide Pow10;
    if code == 0 {
      return 0;
    }
    var x := code - 1;
    var e := x % 10;
    x := x / 10;
    if e < 9 {
      var d := x % 9 + 1;
      x := x / 9;
      n := x * 10 + d;
    } else {
      n := x + 1;
    }
    n := Scale(n, e);
  }

  /** Multiplies by ten in a word, again and again. */
  method Scale(q: nat, zeros: nat) returns (n: nat)
    requires q < WORD64
    ensures n == (q * Pow10(zeros)) % WORD64
  {
    hide Pow10;
    n := q;
    var e := zeros;
    while e > 0
      invariant e >= 0 && n < WORD64 && (n * Pow10(e)) % WORD64 == (q * Pow10(zeros)) % WORD64
    {
      Shift(n, e);
      WrapFirst(n * 10, Pow10(e - 1));
      n := (n * 10) % WORD64;
      e := e - 1;
    }
    NoZeros(n);
  }

  /** Wrapping a factor changes nothing for a wrapped product. */
  lemma WrapFirst(a: nat, b: nat)
    ensures ((a % WORD64) * b) % WORD64 == (a * b) % WORD64
  {
    var k, r := a / WORD64, a % WORD64;
    assert a * b == WORD64 * (k * b) + r * b by {
      assert a == WORD64 * k + r;
    }
    var q := (r * b) / WORD64;
    assert WORD64 * (k * b) + WORD64 * q == WORD64 * (k * b + q);
    DivMod(a * b, WORD64, k * b + q, (r * b) % WORD64);
  }
}
