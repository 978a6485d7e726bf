/** Decimal rendering of whole numbers and its inverse. */
module Decimal {
  import opened Bytes
  import Utf8

  function Digit(d: int): (c: char)
    requires 0 <= d < 10
    ensures c < 128 as char
  {
    (48 + d) as char
  }

  predicate IsDigit(b: byte) {
    48 <= b <= 57
  }

  predicate AllDigits(b: seq<byte>) {
    forall i :: 0 <= i < |b| ==> IsDigit(b[i])
  }

  // No leading zero, as every integer formatter writes it.
  function Render(n: nat): (s: string)
    ensures s != "" && Utf8.Ascii(s)
  {
    if n < 10 then [Digit(n)] else Render(n / 10) + [Digit(n % 10)]
  }

  // The number a run of digits spells, leading zeros allowed.
  function Value(b: seq<byte>): nat
    requires AllDigits(b)
  {
    if b == [] then 0 else Value(b[..|b| - 1]) * 10 + (b[|b| - 1] - 48)
  }

  /** Rendering is all digits, has no leading zero but for zero itself, and reads back. */
  lemma {:induction false} RenderReadsBack(n: nat)
    ensures var b := Utf8.Encode(Render(n));
            && AllDigits(b) && b != [] && Value(b) == n
            && (b[0] == 48 <==> n == 0)
            && (n == 0 ==> |b| == 1)
    decreases n
  {
    Utf8.EncodeAscii(Render(n));
    var b := Utf8.Encode(Render(n));
    if n >= 10 {
      RenderReadsBack(n / 10);
      Utf8.EncodeAscii(Render(n / 10));
      assert b[..|b| - 1] == Utf8.Encode(Render(n / 10));
    } else {
      assert b[..|b| - 1] == [];
    }
  }

  lemma RenderInjective(m: nat, n: nat)
    requires Render(m) == Render(n)
    ensures m == n
  {
    RenderReadsBack(m);
    RenderReadsBack(n);
  }

  // ----- signed -----

  function RenderInt(i: int): (s: string)
    ensures s != "" && Utf8.Ascii(s)
  {
    if i < 0 then "-" + Render(-i) else Render(i)
  }
}
