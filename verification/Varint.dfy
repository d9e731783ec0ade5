/** Base 128 varints (Protocol Buffers encoding, "Base 128 Varints") and the
    length loop the handshake arithmetic relies on. */
module Varint {
  import opened Outcomes

  type Byte = x: int | 0 <= x < 256

  /** Seven bits a byte, least significant group first; the top bit says that
      another byte follows. */
  function Encode(n: nat): (bytes: seq<Byte>)
  {
    if n < 128 then [n] else [n % 128 + 128] + Encode(n / 128)
  }

  /** Reads one varint from the front of `bytes` and returns what follows it. */
  function Decode(bytes: seq<Byte>): Option<(nat, seq<Byte>)>
  {
    if bytes == [] then None
    else if bytes[0] < 128 then Some((bytes[0], bytes[1..]))
    else
      match Decode(bytes[1..])
      case None => None
      case Some((high, rest)) => Some((bytes[0] - 128 + 128 * high, rest))
  }

  /** The number of bytes `Encode` needs. */
  function Len(n: nat): (l: nat)
    ensures l >= 1
  {
    if n < 128 then 1 else 1 + Len(n / 128)
  }

  function Pow128(e: nat): (p: nat)
    ensures p >= 1
  {
    if e == 0 then 1 else 128 * Pow128(e - 1)
  }

  lemma {:induction false} EncodeLength(n: nat)
    ensures |Encode(n)| == Len(n)
  {
    if n >= 128 {
      EncodeLength(n / 128);
    }
  }

  /** Decoding is a left inverse of encoding and leaves the following bytes alone. */
  lemma {:induction false} DecodeEncode(n: nat, rest: seq<Byte>)
    ensures Decode(Encode(n) + rest) == Some((n, rest))
  {
    var bytes := Encode(n) + rest;
    if n < 128 {
      assert bytes[1..] == rest;
    } else {
      assert bytes[1..] == Encode(n / 128) + rest;
      DecodeEncode(n / 128, rest);
    }
  }

  /** The length is the number of base-128 digits. */
  lemma {:induction false} LenBounds(n: nat)
    requires n >= 1
    ensures Pow128(Len(n) - 1) <= n < Pow128(Len(n))
  {
    if n >= 128 {
      LenBounds(n / 128);
    } else {
      assert Pow128(1) == 128 * Pow128(0);
    }
  }

  lemma {:induction false} LenAtMost(n: nat, l: nat)
    requires l >= 1 && n < Pow128(l)
    ensures Len(n) <= l
  {
    if n >= 128 {
      assert Pow128(1) == 128 * Pow128(0);
      LenAtMost(n / 128, l - 1);
    }
  }

  lemma {:induction false} LenMonotone(m: nat, n: nat)
    requires m <= n
    ensures Len(m) <= Len(n)
  {
    if m >= 128 {
      LenMonotone(m / 128, n / 128);
    }
  }

  lemma {:induction false} DecodeShortens(bytes: seq<Byte>)
    requires Decode(bytes).Some?
    ensures |Decode(bytes).value.1| < |bytes|
  {
    if bytes[0] >= 128 {
      DecodeShortens(bytes[1..]);
    }
  }

  /** The encoding is the shortest one: no byte string that decodes to `n`
      spends fewer than `Len(n)` bytes on it. */
  lemma {:induction false} EncodingIsShortest(bytes: seq<Byte>, n: nat, rest: seq<Byte>)
    requires Decode(bytes) == Some((n, rest))
    ensures |bytes| - |rest| >= Len(n)
  {
    if bytes[0] >= 128 {
      EncodingIsShortest(bytes[1..], Decode(bytes[1..]).value.0, rest);
    }
  }

  /** Go's `varintLen`: shift right by seven until what is left fits in seven
      bits. A negative argument never enters the loop. */
  method VarintLen(n: int) returns (l: int)
    ensures n < 0 ==> l == 1
    ensures n >= 0 ==> l == |Encode(n)|
    ensures n >= 1 ==> Pow128(l - 1) <= n < Pow128(l)
  {
    l := 1;
    var m := n;
    while m >= 128
      invariant l >= 1
      invariant n < 0 ==> l == 1 && m == n
      invariant n >= 0 ==> m >= 0 && l - 1 + Len(m) == Len(n)
      decreases m
    {
      m := m / 128;
      l := l + 1;
    }
    if n >= 0 {
      EncodeLength(n);
      if n >= 1 {
        LenBounds(n);
      }
    }
  }
}
