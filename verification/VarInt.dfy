/** Variable-length integers: base 128, most significant digit first, one subtracted from all
    digits but the last. (src/serialize.h, WriteVarInt and ReadVarInt) */
module VarInt {
  import opened Basics

  /** What a reader finds, and how many bytes it took. */
  datatype Found<T> = Nothing | Found(value: T, used: nat) {
    function After(k: nat): Found<T> {
      if Nothing? then Nothing else Found(value, used + k)
    }
  }

  /** The digits before the last one, each with its high bit set. */
  function Lead(n: nat): seq<Byte> {
    if n <= 0x7F then [n + 128] else Lead(n / 128 - 1) + [n % 128 + 128]
  }

  /** A negative number of a signed type is cut to its low seven bits. */
  function Encode(n: int): seq<Byte> {
    if n <= 0x7F then [n % 128] else Lead(n / 128 - 1) + [n % 128]
  }

  /** The number at the front; acc is what earlier bytes have contributed. */
  function DecodeFrom(s: seq<Byte>, acc: nat): Found<int>
    decreases |s|
  {
    if |s| == 0 then Nothing
    else
      var n := acc * 128 + s[0] % 128;
      if s[0] >= 128 then DecodeFrom(s[1..], n + 1).After(1) else Found(n, 1)
  }

  function Decode(s: seq<Byte>): Found<int> {
    DecodeFrom(s, 0)
  }

  lemma {:induction false} DecodeLead(n: nat, rest: seq<Byte>)
    ensures DecodeFrom(Lead(n) + rest, 0) == DecodeFrom(rest, n + 1).After(|Lead(n)|)
    decreases n
  {
    if n <= 0x7F {
      assert (Lead(n) + rest)[1..] == rest;
    } else {
      var m, b := n / 128 - 1, n % 128 + 128;
      DecodeLead(m, [b] + rest);
      assert Lead(n) + rest == Lead(m) + ([b] + rest);
      assert ([b] + rest)[1..] == rest;
      Recombine(n);
    }
  }

  lemma Recombine(n: nat)
    requires n > 0x7F
    ensures n / 128 - 1 >= 0 && (n / 128 - 1 + 1) * 128 + n % 128 == n && (n % 128 + 128) % 128 == n % 128
  {
  }

  /** Reading back a natural number gives it, and takes exactly the bytes written. */
  lemma RoundTrip(n: nat, rest: seq<Byte>)
    ensures Decode(Encode(n) + rest) == Found(n, |Encode(n)|)
  {
    if n <= 0x7F {
    } else {
      var m, b := n / 128 - 1, n % 128;
      DecodeLead(m, [b] + rest);
      assert Encode(n) + rest == Lead(m) + ([b] + rest);
      Recombine(n);
    }
  }

  /** A negative number does not come back. */
  lemma NegativeIsLost(n: int, rest: seq<Byte>)
    requires n < 0
    ensures Decode(Encode(n) + rest) == Found(n % 128, 1) && n % 128 != n
  {
  }

  /** What is left of a signed number after storing it: itself, unless it is negative. */
  function Kept(n: int): (r: nat)
    ensures n >= 0 <==> r == n
  {
    if n < 0 then n % 128 else n
  }

  lemma RoundTripKept(n: int, rest: seq<Byte>)
    ensures Decode(Encode(n) + rest) == Found(Kept(n), |Encode(n)|)
  {
    hide Decode;
    if n < 0 {
      NegativeIsLost(n, rest);
    } else {
      RoundTrip(n, rest);
    }
  }

  lemma Digit(acc: nat, d: nat)
    requires d < 128
    ensures (acc * 128 + d) / 128 == acc && (acc * 128 + d) % 128 == d
  {
  }

  /** One digit more, in the middle and at the end. */
  lemma NextDigit(acc: nat, d: nat)
    requires d < 128
    ensures Lead(acc * 128 + d) == (if acc == 0 then [] else Lead(acc - 1)) + [d + 128]
    ensures Encode(acc * 128 + d) == (if acc == 0 then [] else Lead(acc - 1)) + [d]
  {
    Digit(acc, d);
    if acc == 0 {
      assert [] + [d + 128] == [d + 128] && [] + [d] == [d];
    }
  }

  /** Writing what was read gives the bytes that were read: one encoding per number. */
  lemma {:induction false} OneEncoding(s: seq<Byte>, acc: nat, head: seq<Byte>)
    requires DecodeFrom(s, acc).Found? && head == if acc == 0 then [] else Lead(acc - 1)
    ensures var n, used := DecodeFrom(s, acc).value, DecodeFrom(s, acc).used;
            0 < used <= |s| && head + s[..used] == Encode(n)
    decreases |s|
  {
    hide Lead, Encode;
    var d := s[0] % 128;
    var n := acc * 128 + d;
    NextDigit(acc, d);
    if s[0] >= 128 {
      var head1 := head + [s[0]];
      assert s[0] == d + 128;
      OneEncoding(s[1..], n + 1, head1);
      var used := DecodeFrom(s[1..], n + 1).used;
      assert head + s[..used + 1] == head1 + s[1..][..used];
    } else {
      assert s[..1] == [s[0]];
    }
  }

  lemma DecodedBytesAreCanonical(s: seq<Byte>)
    requires Decode(s).Found?
    ensures var n, used := Decode(s).value, Decode(s).used;
            0 < used <= |s| && s[..used] == Encode(n)
  {
    OneEncoding(s, 0, []);
    var used := Decode(s).used;
    assert [] + s[..used] == s[..used];
  }

  // ---------- the code ----------

  method WriteVarInt(n: int) returns (os: seq<Byte>)
    ensures os == Encode(n)
  {
    hide Encode;
    var tmp: seq<Byte>;
    ghost var digits: seq<Byte>;
    tmp, digits := LowDigitsFirst(n);
    os := [];
    var len := |tmp|;
    while len > 0
      invariant 0 <= len <= |tmp| && os == digits[..|tmp| - len]
    {
      len := len - 1;
      os := os + [tmp[len]];
      assert digits[|tmp| - 1 - len] == tmp[len];
    }
    assert os == digits;
  }

  ghost predicate Mirrored(tmp: seq<Byte>, digits: seq<Byte>) {
    |digits| == |tmp| && forall i :: 0 <= i < |tmp| ==> digits[i] == tmp[|tmp| - 1 - i]
  }

  lemma MirrorOneMore(tmp: seq<Byte>, digits: seq<Byte>, b: Byte)
    requires Mirrored(tmp, digits)
    ensures Mirrored(tmp + [b], [b] + digits)
  {
  }

  /** The bytes of n, last one first, together with their mirror image. */
  method LowDigitsFirst(n: int) returns (tmp: seq<Byte>, ghost digits: seq<Byte>)
    ensures Mirrored(tmp, digits) && digits == Encode(n)
  {
    hide Mirrored;
    tmp, digits := [n % 128], [n % 128];
    OneMirrored(n % 128);
    if n <= 0x7F {
      return;
    }
    var m: nat := n / 128 - 1;
    while m > 0x7F
      invariant Mirrored(tmp, digits) && Encode(n) == Lead(m) + digits
      decreases m
    {
      var b: Byte := m % 128 + 128;
      MirrorOneMore(tmp, digits, b);
      assert Lead(m / 128 - 1) + [b] + digits == Lead(m / 128 - 1) + ([b] + digits);
      tmp, digits := tmp + [b], [b] + digits;
      m := m / 128 - 1;
    }
    MirrorOneMore(tmp, digits, m + 128);
    tmp, digits := tmp + [m + 128], [m + 128] + digits;
  }

  lemma OneMirrored(b: Byte)
    ensures Mirrored([b], [b])
  {
  }

  method ReadVarInt(s: seq<Byte>) returns (r: Found<int>)
    ensures r == Decode(s)
  {
    var n: nat, at: nat := 0, 0;
    while true
      invariant 0 <= at <= |s| && n >= 0
      invariant Decode(s) == DecodeFrom(s[at..], n).After(at)
      decreases |s| - at
    {
      if at == |s| {
        return Nothing;
      }
      var chData := s[at];
      assert s[at..][1..] == s[at + 1..];
      n, at := n * 128 + chData % 128, at + 1;
      if chData >= 128 {
        n := n + 1;
      } else {
        return Found(n, at);
      }
    }
  }
}
