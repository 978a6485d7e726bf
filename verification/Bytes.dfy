/** Bytes as numbers, big-endian counts, and the bridge to field elements. */
module Bytes {

  type byte = b: int | 0 <= b < 256

  // ----- big-endian counts -----

  function Pow256(width: nat): (p: nat)
    ensures p > 0
  {
    if width == 0 then 1 else 256 * Pow256(width - 1)
  }

  // The low `width` bytes of `n`, most significant first.
  function BigEndian(n: nat, width: nat): (b: seq<byte>)
    ensures |b| == width
    decreases width
  {
    if width == 0 then [] else BigEndian(n / 256, width - 1) + [n % 256]
  }

  function FromBigEndian(b: seq<byte>): nat {
    if b == [] then 0 else FromBigEndian(b[..|b| - 1]) * 256 + b[|b| - 1]
  }

  lemma {:induction false} BigEndianRoundTrip(n: nat, width: nat)
    requires n < Pow256(width)
    ensures FromBigEndian(BigEndian(n, width)) == n
    decreases width
  {
    if width > 0 {
      var b := BigEndian(n, width);
      assert b[..|b| - 1] == BigEndian(n / 256, width - 1);
      BigEndianRoundTrip(n / 256, width - 1);
    }
  }

  lemma {:induction false} FromBigEndianRoundTrip(b: seq<byte>)
    ensures BigEndian(FromBigEndian(b), |b|) == b
  {
    if b != [] {
      FromBigEndianRoundTrip(b[..|b| - 1]);
      LastDigit(FromBigEndian(b[..|b| - 1]), b[|b| - 1]);
    }
  }

  lemma LastDigit(high: nat, low: byte)
    ensures (high * 256 + low) / 256 == high && (high * 256 + low) % 256 == low
  {
  }

  lemma BigEndianInjective(m: nat, n: nat, width: nat)
    requires m < Pow256(width) && n < Pow256(width)
    requires BigEndian(m, width) == BigEndian(n, width)
    ensures m == n
  {
    BigEndianRoundTrip(m, width);
    BigEndianRoundTrip(n, width);
  }

  // ----- field elements as bytes -----

  function ToBytes(s: seq<bv8>): (b: seq<byte>)
    ensures |b| == |s|
  {
    seq(|s|, i requires 0 <= i < |s| => Octet(s[i]))
  }

  function FromBytes(b: seq<byte>): (s: seq<bv8>)
    ensures |s| == |b|
  {
    seq(|b|, i requires 0 <= i < |b| => Element(b[i]))
  }

  function Octet(x: bv8): byte {
    x as int
  }

  function Element(b: byte): bv8 {
    b as bv8
  }

  lemma OctetRoundTrip(x: bv8)
    ensures Element(Octet(x)) == x
  {
  }

  lemma ElementRoundTrip(b: byte)
    ensures Octet(Element(b)) == b
  {
    ThroughEightBits(b);
  }

  // By ranges, which is how the solver settles it soonest.
  lemma ThroughEightBits(i: int)
    requires 0 <= i < 256
    ensures (i as bv8) as int == i
  {
    if i < 32 {
      if i < 16 {
      } else {
      }
    } else if i < 64 {
      if i < 48 {
      } else {
      }
    } else if i < 128 {
      if i < 96 {
      } else {
      }
    } else if i < 192 {
    } else {
    }
  }

  lemma BytesRoundTrip(s: seq<bv8>)
    ensures FromBytes(ToBytes(s)) == s
  {
    hide Octet, Element;
    forall i | 0 <= i < |s|
      ensures FromBytes(ToBytes(s))[i] == s[i]
    {
      OctetRoundTrip(s[i]);
    }
  }

  lemma ElementsRoundTrip(b: seq<byte>)
    ensures ToBytes(FromBytes(b)) == b
  {
    hide Octet, Element;
    forall i | 0 <= i < |b|
      ensures ToBytes(FromBytes(b))[i] == b[i]
    {
      ElementRoundTrip(b[i]);
    }
  }
}
