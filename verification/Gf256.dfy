/**
 The field of 256 elements whose modulus is x^8 + x^4 + x^3 + x + 1.

 `Mul` is shown to be the product of polynomials over GF(2) modulo that
 polynomial (section 4.2 of FIPS 197), and every field axiom is proved. Bit
 arithmetic is confined to a few small lemmas; everything else follows from
 the linearity of `Double` and from how `MulFrom` is built.
 */
module Gf256 {

  function Add(a: bv8, b: bv8): bv8 {
    a ^ b
  }

  // Multiplication by x: shift, then reduce by 0x11B if the shift overflowed.
  function Double(a: bv8): bv8 {
    (a << 1) ^ (0x1B * (a >> 7))
  }

  function Halve(b: bv8): bv8 {
    b >> 1
  }

  // `a` if the low bit of `b` is set.
  function LowBit(a: bv8, b: bv8): bv8 {
    if b & 1 != 0 then a else 0
  }

  // What the steps from `step` on add to the product, for the operands as they
  // stand at that step.
  function MulFrom(a: bv8, b: bv8, step: nat): bv8
    requires step <= 8
    decreases 8 - step
  {
    if step == 8 then 0 else Add(LowBit(a, b), MulFrom(Double(a), Halve(b), step + 1))
  }

  function Mul(a: bv8, b: bv8): bv8 {
    MulFrom(a, b, 0)
  }

  function Pow(a: bv8, n: nat): bv8
    decreases n
  {
    if n == 0 then 1 else Mul(Pow(a, n - 1), a)
  }

  function Inverse(a: bv8): bv8 {
    if a == 0 then 0 else Pow(a, 254)
  }

  function Div(a: bv8, b: bv8): bv8 {
    Mul(a, Inverse(b))
  }

  // ----- the loops of the source -----

  /** Russian-peasant multiplication, branch free. */
  method MulLoop(a0: bv8, b0: bv8) returns (product: bv8)
    ensures product == Mul(a0, b0)
  {
    hide Add, Double, Halve, LowBit;
    var a, b := a0, b0;
    product := 0;
    var step := 0;
    AddIsGroup(Mul(a0, b0), 0, 0);
    while step < 8
      invariant 0 <= step <= 8
      invariant Add(product, MulFrom(a, b, step)) == Mul(a0, b0)
    {
      BranchFree(product, a, b);
      AddIsGroup(product, LowBit(a, b), MulFrom(Double(a), Halve(b), step + 1));
      product := product ^ (a * (b & 1));
      var highBit := a >> 7;
      a := a << 1;
      a := a ^ (0x1B * highBit);
      b := b >> 1;
      step := step + 1;
    }
    AddIsGroup(product, 0, 0);
  }

  lemma BranchFree(product: bv8, a: bv8, b: bv8)
    ensures product ^ (a * (b & 1)) == Add(product, LowBit(a, b))
    ensures (a << 1) ^ (0x1B * (a >> 7)) == Double(a)
    ensures b >> 1 == Halve(b)
  {
    assert b & 1 == 0 || b & 1 == 1;
  }

  /** a^254 by repeated multiplication; the inverse of zero is defined as zero. */
  method InverseLoop(a: bv8) returns (result: bv8)
    ensures result == Inverse(a)
  {
    hide Mul;
    if a == 0 {
      return 0;
    }
    result := 1;
    var power := 0;
    while power < 254
      invariant 0 <= power <= 254
      invariant result == Pow(a, power)
    {
      result := MulLoop(result, a);
      power := power + 1;
    }
  }

  // ----- addition -----

  lemma AddIsGroup(a: bv8, b: bv8, c: bv8)
    ensures Add(a, b) == Add(b, a)
    ensures Add(Add(a, b), c) == Add(a, Add(b, c))
    ensures Add(a, 0) == a && Add(0, a) == a
    ensures Add(a, a) == 0
  {
    assert (a ^ b) ^ c == a ^ (b ^ c);
  }

  lemma AddCancels(a: bv8, b: bv8)
    ensures Add(a, b) == 0 <==> a == b
  {
    assert a ^ b == 0 <==> a == b;
  }

  lemma Interchange(a: bv8, b: bv8, c: bv8, d: bv8)
    ensures Add(Add(a, b), Add(c, d)) == Add(Add(a, c), Add(b, d))
  {
    assert (a ^ b) ^ (c ^ d) == (a ^ c) ^ (b ^ d);
  }

  // ----- linearity, bit by bit -----

  lemma DoubleLinear(a: bv8, b: bv8)
    ensures Double(Add(a, b)) == Add(Double(a), Double(b))
    ensures Double(0) == 0
  {
  }

  lemma LowBitLinear(a: bv8, c: bv8, b: bv8)
    ensures LowBit(Add(a, c), b) == Add(LowBit(a, b), LowBit(c, b))
    ensures LowBit(Double(a), b) == Double(LowBit(a, b))
    ensures LowBit(0, b) == 0
  {
    hide Double;
    DoubleLinear(0, 0);
    AddIsGroup(0, 0, 0);
  }

  lemma {:induction false} MulFromAddLeft(a: bv8, c: bv8, b: bv8, step: nat)
    requires step <= 8
    ensures MulFrom(Add(a, c), b, step) == Add(MulFrom(a, b, step), MulFrom(c, b, step))
    decreases 8 - step
  {
    hide Add, Double, Halve, LowBit;
    if step == 8 {
      AddIsGroup(0, 0, 0);
    } else {
      DoubleLinear(a, c);
      LowBitLinear(a, c, b);
      MulFromAddLeft(Double(a), Double(c), Halve(b), step + 1);
      Interchange(LowBit(a, b), LowBit(c, b),
                  MulFrom(Double(a), Halve(b), step + 1), MulFrom(Double(c), Halve(b), step + 1));
    }
  }

  lemma {:induction false} MulFromDouble(a: bv8, b: bv8, step: nat)
    requires step <= 8
    ensures MulFrom(Double(a), b, step) == Double(MulFrom(a, b, step))
    decreases 8 - step
  {
    hide Add, Double, Halve, LowBit;
    DoubleLinear(0, 0);
    if step < 8 {
      MulFromDouble(Double(a), Halve(b), step + 1);
      LowBitLinear(a, a, b);
      DoubleLinear(LowBit(a, b), MulFrom(Double(a), Halve(b), step + 1));
    }
  }

  lemma {:induction false} MulFromZero(b: bv8, step: nat)
    requires step <= 8
    ensures MulFrom(0, b, step) == 0
    decreases 8 - step
  {
    hide Add, Double, Halve, LowBit;
    if step < 8 {
      DoubleLinear(0, 0);
      LowBitLinear(0, 0, b);
      AddIsGroup(0, 0, 0);
      MulFromZero(Halve(b), step + 1);
    }
  }

  // ----- the ring axioms -----

  lemma MulUnrolled(a: bv8, b: bv8)
    ensures var a1 := Double(a); var a2 := Double(a1); var a3 := Double(a2); var a4 := Double(a3);
            var a5 := Double(a4); var a6 := Double(a5); var a7 := Double(a6);
            var b1 := Halve(b); var b2 := Halve(b1); var b3 := Halve(b2); var b4 := Halve(b3);
            var b5 := Halve(b4); var b6 := Halve(b5); var b7 := Halve(b6);
            Mul(a, b) == Add(LowBit(a, b), Add(LowBit(a1, b1), Add(LowBit(a2, b2), Add(LowBit(a3, b3),
              Add(LowBit(a4, b4), Add(LowBit(a5, b5), Add(LowBit(a6, b6), Add(LowBit(a7, b7), 0))))))))
  {
    hide Add, Double, Halve, LowBit;
    var a1 := Double(a); var a2 := Double(a1); var a3 := Double(a2); var a4 := Double(a3);
    var a5 := Double(a4); var a6 := Double(a5); var a7 := Double(a6);
    var b1 := Halve(b); var b2 := Halve(b1); var b3 := Halve(b2); var b4 := Halve(b3);
    var b5 := Halve(b4); var b6 := Halve(b5); var b7 := Halve(b6);
    assert MulFrom(a4, b4, 4) == Add(LowBit(a4, b4), MulFrom(a5, b5, 5));
    assert MulFrom(a5, b5, 5) == Add(LowBit(a5, b5), MulFrom(a6, b6, 6));
    assert MulFrom(a6, b6, 6) == Add(LowBit(a6, b6), MulFrom(a7, b7, 7));
    assert MulFrom(a7, b7, 7) == Add(LowBit(a7, b7), MulFrom(Double(a7), Halve(b7), 8));
  }

  lemma MulOne(b: bv8)
    ensures Mul(1, b) == b
  {
    hide Add, Double, Halve, LowBit, Mul;
    MulUnrolled(1, b);
    PowersOfX();
    BitsOf(b);
  }

  lemma PowersOfX()
    ensures Double(1) == 2 && Double(2) == 4 && Double(4) == 8 && Double(8) == 0x10
    ensures Double(0x10) == 0x20 && Double(0x20) == 0x40 && Double(0x40) == 0x80
  {
  }

  lemma BitsOf(b: bv8)
    ensures var b1 := Halve(b); var b2 := Halve(b1); var b3 := Halve(b2); var b4 := Halve(b3);
            var b5 := Halve(b4); var b6 := Halve(b5); var b7 := Halve(b6);
            Add(LowBit(1, b), Add(LowBit(2, b1), Add(LowBit(4, b2), Add(LowBit(8, b3), Add(LowBit(0x10, b4),
            Add(LowBit(0x20, b5), Add(LowBit(0x40, b6), Add(LowBit(0x80, b7), 0)))))))) == b
  {
  }

  // Multiplying by `a` one bit at a time may be done before or after
  // multiplying by `b`. Commutativity and associativity both follow.
  lemma {:induction false} MulFromMul(e: bv8, b: bv8, a: bv8, step: nat)
    requires step <= 8
    ensures MulFrom(Mul(e, b), a, step) == Mul(MulFrom(e, a, step), b)
    decreases 8 - step
  {
    hide Add, Double, Halve, LowBit;
    if step == 8 {
      MulFromZero(b, 0);
    } else {
      MulFromDouble(e, b, 0);
      MulFromMul(Double(e), b, Halve(a), step + 1);
      LowBitMul(e, b, a);
      MulFromAddLeft(LowBit(e, a), MulFrom(Double(e), Halve(a), step + 1), b, 0);
    }
  }

  lemma LowBitMul(e: bv8, b: bv8, a: bv8)
    ensures LowBit(Mul(e, b), a) == Mul(LowBit(e, a), b)
  {
    MulFromZero(b, 0);
  }

  lemma Commutative(a: bv8, b: bv8)
    ensures Mul(a, b) == Mul(b, a)
  {
    MulOne(a);
    MulOne(b);
    MulFromMul(1, b, a, 0);
  }

  lemma Associative(a: bv8, b: bv8, c: bv8)
    ensures Mul(Mul(a, b), c) == Mul(a, Mul(b, c))
  {
    hide Mul, MulFrom;
    Commutative(a, b);
    Commutative(Mul(b, c), a);
    MulMul(b, a, c);
  }

  lemma MulMul(e: bv8, b: bv8, a: bv8)
    ensures Mul(Mul(e, b), a) == Mul(Mul(e, a), b)
  {
    MulFromMul(e, b, a, 0);
  }

  lemma Distributive(a: bv8, b: bv8, c: bv8)
    ensures Mul(Add(a, b), c) == Add(Mul(a, c), Mul(b, c))
    ensures Mul(c, Add(a, b)) == Add(Mul(c, a), Mul(c, b))
  {
    hide Add;
    MulFromAddLeft(a, b, c, 0);
    Commutative(Add(a, b), c);
    Commutative(a, c);
    Commutative(b, c);
  }

  lemma MulUnits(a: bv8)
    ensures Mul(a, 0) == 0 && Mul(0, a) == 0
    ensures Mul(a, 1) == a && Mul(1, a) == a
  {
    hide Add;
    MulFromZero(a, 0);
    Commutative(a, 0);
    MulOne(a);
    Commutative(a, 1);
  }

  // ----- squaring eight times is the identity -----

  function Square(a: bv8): bv8 {
    Mul(a, a)
  }

  // a^256
  function Frobenius8(a: bv8): bv8 {
    Square(Square(Square(Square(Square(Square(Square(Square(a))))))))
  }

  lemma SquareMul(a: bv8, b: bv8)
    ensures Square(Mul(a, b)) == Mul(Square(a), Square(b))
  {
    hide Mul;
    Associative(a, b, Mul(a, b));
    Associative(b, a, b);
    Commutative(b, a);
    Associative(a, b, b);
    Associative(a, a, Mul(b, b));
  }

  lemma SquareAdd(a: bv8, b: bv8)
    ensures Square(Add(a, b)) == Add(Square(a), Square(b))
  {
    hide Mul, Add;
    Distributive(a, b, Add(a, b));
    Distributive(a, b, a);
    Distributive(a, b, b);
    Commutative(a, b);
    Interchange(Mul(a, a), Mul(a, b), Mul(a, b), Mul(b, b));
    AddIsGroup(Mul(a, a), Mul(a, b), Mul(a, b));
    AddIsGroup(Mul(a, b), Mul(a, b), Mul(b, b));
    AddIsGroup(Mul(a, b), Mul(b, b), 0);
    AddIsGroup(Mul(b, b), 0, 0);
    AddIsGroup(Mul(a, a), Mul(a, b), Add(Mul(a, b), Mul(b, b)));
  }

  lemma Frobenius8Mul(a: bv8, b: bv8)
    ensures Frobenius8(Mul(a, b)) == Mul(Frobenius8(a), Frobenius8(b))
  {
    hide Mul, Square;
    var a1 := Square(a); var a2 := Square(a1); var a3 := Square(a2); var a4 := Square(a3);
    var a5 := Square(a4); var a6 := Square(a5); var a7 := Square(a6);
    var b1 := Square(b); var b2 := Square(b1); var b3 := Square(b2); var b4 := Square(b3);
    var b5 := Square(b4); var b6 := Square(b5); var b7 := Square(b6);
    SquareMul(a, b); SquareMul(a1, b1); SquareMul(a2, b2); SquareMul(a3, b3);
    SquareMul(a4, b4); SquareMul(a5, b5); SquareMul(a6, b6); SquareMul(a7, b7);
  }

  lemma Frobenius8Add(a: bv8, b: bv8)
    ensures Frobenius8(Add(a, b)) == Add(Frobenius8(a), Frobenius8(b))
  {
    hide Mul, Square, Add;
    var a1 := Square(a); var a2 := Square(a1); var a3 := Square(a2); var a4 := Square(a3);
    var a5 := Square(a4); var a6 := Square(a5); var a7 := Square(a6);
    var b1 := Square(b); var b2 := Square(b1); var b3 := Square(b2); var b4 := Square(b3);
    var b5 := Square(b4); var b6 := Square(b5); var b7 := Square(b6);
    SquareAdd(a, b); SquareAdd(a1, b1); SquareAdd(a2, b2); SquareAdd(a3, b3);
    SquareAdd(a4, b4); SquareAdd(a5, b5); SquareAdd(a6, b6); SquareAdd(a7, b7);
  }

  // The conjugates of x.
  lemma SquareTable(a: bv8)
    ensures a == 0 || a == 1 ==> Square(a) == a
    ensures a == 2 ==> Square(a) == 4
    ensures a == 4 ==> Square(a) == 0x10
    ensures a == 0x10 ==> Square(a) == 0x1B
    ensures a == 0x1B ==> Square(a) == 0x5E
    ensures a == 0x5E ==> Square(a) == 0xE4
    ensures a == 0xE4 ==> Square(a) == 0x4D
    ensures a == 0x4D ==> Square(a) == 0xFA
    ensures a == 0xFA ==> Square(a) == 2
  {
    hide MulFrom, Mul;
    MulUnrolled(a, a);
  }

  // x generates the field as a ring, and is a root of the identity.
  lemma Frobenius8OfX()
    ensures Frobenius8(2) == 2 && Frobenius8(1) == 1 && Frobenius8(0) == 0
  {
    hide Square;
    SquareTable(2); SquareTable(4); SquareTable(0x10); SquareTable(0x1B);
    SquareTable(0x5E); SquareTable(0xE4); SquareTable(0x4D); SquareTable(0xFA);
    SquareTable(1); SquareTable(0);
  }

  lemma DoubleIsMulByX(a: bv8)
    ensures Double(a) == Mul(2, a)
  {
    hide Add, Double;
    MulFromDouble(1, a, 0);
    MulOne(a);
    PowersOfX();
  }

  lemma {:induction false} Frobenius8FixesProducts(e: bv8, a: bv8, step: nat)
    requires step <= 8
    requires Frobenius8(e) == e
    ensures Frobenius8(MulFrom(e, a, step)) == MulFrom(e, a, step)
    decreases 8 - step
  {
    hide Add, Double, Halve, Mul, Frobenius8;
    Frobenius8OfX();
    if step < 8 {
      DoubleIsMulByX(e);
      Frobenius8Mul(2, e);
      Frobenius8FixesProducts(Double(e), Halve(a), step + 1);
      Frobenius8Add(LowBit(e, a), MulFrom(Double(e), Halve(a), step + 1));
    }
  }

  /** a^256 == a for every element. */
  lemma Frobenius8IsIdentity(a: bv8)
    ensures Frobenius8(a) == a
  {
    hide Frobenius8;
    Frobenius8OfX();
    Frobenius8FixesProducts(1, a, 0);
    MulOne(a);
  }

  // ----- Fermat's little theorem, and inverses -----

  lemma {:induction false} PowAdd(a: bv8, m: nat, n: nat)
    ensures Pow(a, m + n) == Mul(Pow(a, m), Pow(a, n))
    decreases n
  {
    hide Mul;
    if n == 0 {
      MulUnits(Pow(a, m));
    } else {
      PowAdd(a, m, n - 1);
      Associative(Pow(a, m), Pow(a, n - 1), a);
    }
  }

  lemma Pow256(a: bv8)
    ensures Pow(a, 256) == Frobenius8(a)
  {
    hide Mul;
    MulUnits(a);
    PowAdd(a, 1, 1); PowAdd(a, 2, 2); PowAdd(a, 4, 4); PowAdd(a, 8, 8);
    PowAdd(a, 16, 16); PowAdd(a, 32, 32); PowAdd(a, 64, 64); PowAdd(a, 128, 128);
  }

  // The elements fixed by squaring are exactly 0 and 1.
  lemma SquareFixedPoints(p: bv8)
    requires Square(p) == p
    ensures p == 0 || p == 1
  {
  }

  lemma Fermat(a: bv8)
    requires a != 0
    ensures Pow(a, 255) == 1
  {
    hide Mul, Frobenius8;
    Pow256(a);
    Frobenius8IsIdentity(a);
    var p := Pow(a, 255);
    PowAdd(a, 255, 255);
    PowAdd(a, 256, 254);
    PowAdd(a, 1, 254);
    MulUnits(a);
    SquareFixedPoints(p);
    PowAdd(a, 255, 1);
  }

  /** Every nonzero element has an inverse, and `Inverse` finds it. */
  lemma InverseIsInverse(a: bv8)
    requires a != 0
    ensures Mul(a, Inverse(a)) == 1 && Mul(Inverse(a), a) == 1
  {
    hide Mul;
    Fermat(a);
    PowAdd(a, 254, 1);
    MulUnits(a);
    Commutative(a, Inverse(a));
  }

  lemma NoZeroDivisors(a: bv8, b: bv8)
    ensures Mul(a, b) == 0 <==> a == 0 || b == 0
  {
    hide Mul, Inverse;
    MulUnits(a);
    MulUnits(b);
    if Mul(a, b) == 0 && a != 0 {
      InverseIsInverse(a);
      Associative(Inverse(a), a, b);
      MulUnits(Inverse(a));
    }
  }

  lemma DivUndoesMul(a: bv8, b: bv8)
    requires b != 0
    ensures Div(Mul(a, b), b) == a && Mul(Div(a, b), b) == a
  {
    hide Mul, Inverse;
    InverseIsInverse(b);
    Associative(a, b, Inverse(b));
    Associative(a, Inverse(b), b);
    MulUnits(a);
  }

  // ----- the product as polynomials over GF(2) -----

  // A polynomial of degree below 16; bit i of `lo` is the coefficient of x^i
  // and bit i of `hi` the coefficient of x^(8+i).
  datatype Polynomial = Polynomial(hi: bv8, lo: bv8)

  function Plus(p: Polynomial, q: Polynomial): Polynomial {
    Polynomial(Add(p.hi, q.hi), Add(p.lo, q.lo))
  }

  function TimesX(p: Polynomial): Polynomial {
    Polynomial((p.hi << 1) | (p.lo >> 7), p.lo << 1)
  }

  function KeepIf(p: Polynomial, b: bv8): Polynomial {
    Polynomial(LowBit(p.hi, b), LowBit(p.lo, b))
  }

  // The product of two polynomials before any reduction. Its degree is at
  // most 14, so `TimesX` never drops a coefficient.
  function CarrylessFrom(p: Polynomial, b: bv8, step: nat): Polynomial
    requires step <= 8
    decreases 8 - step
  {
    if step == 8 then Polynomial(0, 0)
    else Plus(KeepIf(p, b), CarrylessFrom(TimesX(p), Halve(b), step + 1))
  }

  function Carryless(a: bv8, b: bv8): Polynomial {
    CarrylessFrom(Polynomial(0, a), b, 0)
  }

  // q times x^8 + x^4 + x^3 + x + 1.
  function Multiple(q: bv8): Polynomial {
    Polynomial(Add(Add(q, q >> 4), Add(q >> 5, q >> 7)), Add(Add(q, q << 1), Add(q << 3, q << 4)))
  }

  // Bits that the quotient may use after `step` doublings.
  function Mask(step: nat): bv8
  {
    if step == 0 then 0 else NextMask(Mask(step - 1))
  }

  function NextMask(mask: bv8): bv8 {
    (mask << 1) | 1
  }

  predicate Within(q: bv8, mask: bv8) {
    q & !mask == 0
  }

  function Congruent(q: bv8, a: bv8): Polynomial {
    Plus(Multiple(q), Polynomial(0, a))
  }

  lemma ShiftLinear(p: bv8, q: bv8)
    ensures Add(p, q) >> 4 == Add(p >> 4, q >> 4)
    ensures Add(p, q) >> 5 == Add(p >> 5, q >> 5)
    ensures Add(p, q) >> 7 == Add(p >> 7, q >> 7)
    ensures Add(p, q) << 1 == Add(p << 1, q << 1)
    ensures Add(p, q) << 3 == Add(p << 3, q << 3)
    ensures Add(p, q) << 4 == Add(p << 4, q << 4)
  {
  }

  lemma MultipleLinear(p: bv8, q: bv8)
    ensures Multiple(Add(p, q)) == Plus(Multiple(p), Multiple(q))
    ensures Multiple(0) == Polynomial(0, 0)
  {
    ShiftLinear(p, q);
    hide Add;
    AddIsGroup(0, 0, 0);
    Interchange(p, q, p >> 4, q >> 4);
    Interchange(p >> 5, q >> 5, p >> 7, q >> 7);
    Interchange(Add(p, p >> 4), Add(q, q >> 4), Add(p >> 5, p >> 7), Add(q >> 5, q >> 7));
    Interchange(p, q, p << 1, q << 1);
    Interchange(p << 3, q << 3, p << 4, q << 4);
    Interchange(Add(p, p << 1), Add(q, q << 1), Add(p << 3, p << 4), Add(q << 3, q << 4));
  }

  lemma CongruentLinear(p: bv8, a: bv8, q: bv8, c: bv8, b: bv8)
    ensures Plus(Congruent(p, a), Congruent(q, c)) == Congruent(Add(p, q), Add(a, c))
    ensures KeepIf(Congruent(q, c), b) == Congruent(LowBit(q, b), LowBit(c, b))
    ensures Congruent(0, a) == Polynomial(0, a)
  {
    hide Add, Multiple;
    MultipleLinear(p, q);
    AddIsGroup(0, 0, 0);
    AddIsGroup(a, 0, 0);
    Interchange(Multiple(p).hi, 0, Multiple(q).hi, 0);
    Interchange(Multiple(p).lo, a, Multiple(q).lo, c);
  }

  // One doubling step, followed on the unreduced side.
  lemma TimesXReduces(q: bv8, a: bv8) returns (r: bv8)
    requires Within(q, 0x7F)
    ensures TimesX(Congruent(q, a)) == Congruent(r, Double(a))
    ensures forall mask :: Within(q, mask) ==> Within(r, NextMask(mask))
  {
    r := (q << 1) ^ (a >> 7);
    TimesXIs(q, a);
    forall mask | Within(q, mask)
      ensures Within(r, NextMask(mask))
    {
      NextWithin(q, a, mask);
    }
    hide TimesX, Congruent, Double, Within, NextMask;
  }

  // The two halves of the shifted multiple, bit by bit.
  lemma ShiftedHigh(q: bv8, a: bv8)
    requires q & !0x7F == 0
    ensures (((q ^ (q >> 4)) ^ ((q >> 5) ^ (q >> 7)) ^ 0) << 1) | (((q ^ (q << 1)) ^ ((q << 3) ^ (q << 4)) ^ a) >> 7)
         == var r := (q << 1) ^ (a >> 7); (r ^ (r >> 4)) ^ ((r >> 5) ^ (r >> 7)) ^ 0
  {
  }

  lemma ShiftedLow(q: bv8, a: bv8)
    requires q & !0x7F == 0
    ensures ((q ^ (q << 1)) ^ ((q << 3) ^ (q << 4)) ^ a) << 1
         == var r := (q << 1) ^ (a >> 7); (r ^ (r << 1)) ^ ((r << 3) ^ (r << 4)) ^ ((a << 1) ^ (0x1B * (a >> 7)))
  {
  }

  lemma TimesXIs(q: bv8, a: bv8)
    requires Within(q, 0x7F)
    ensures TimesX(Congruent(q, a)) == Congruent((q << 1) ^ (a >> 7), Double(a))
  {
    ShiftedHigh(q, a);
    ShiftedLow(q, a);
    var r := (q << 1) ^ (a >> 7);
    CongruentHalves(q, a);
    CongruentHalves(r, Double(a));
    hide Congruent, Within;
  }

  lemma CongruentHalves(q: bv8, a: bv8)
    ensures Congruent(q, a).hi == (q ^ (q >> 4)) ^ ((q >> 5) ^ (q >> 7)) ^ 0
    ensures Congruent(q, a).lo == (q ^ (q << 1)) ^ ((q << 3) ^ (q << 4)) ^ a
  {
  }

  lemma NextWithin(q: bv8, a: bv8, mask: bv8)
    requires Within(q, mask)
    ensures Within((q << 1) ^ (a >> 7), NextMask(mask))
  {
  }

  lemma MaskGrows(step: nat)
    requires step <= 7
    ensures forall q :: Within(q, Mask(step)) ==> Within(q, 0x7F)
  {
    var m1 := Mask(1); var m2 := Mask(2); var m3 := Mask(3); var m4 := Mask(4);
    var m5 := Mask(5); var m6 := Mask(6); var m7 := Mask(7);
    assert Mask(0) == 0 && m1 == 1 && m2 == 3 && m3 == 7 && m4 == 0xF && m5 == 0x1F && m6 == 0x3F && m7 == 0x7F;
  }

  lemma WithinLinear(p: bv8, q: bv8, b: bv8)
    requires Within(p, 0x7F) && Within(q, 0x7F)
    ensures Within(Add(LowBit(p, b), q), 0x7F)
  {
  }

  // Whatever the operand has grown to, it stays congruent to the reduced one,
  // so the unreduced sum stays congruent to the reduced sum.
  lemma {:induction false} MulFromReduces(q: bv8, a: bv8, b: bv8, step: nat) returns (r: bv8)
    requires step <= 8
    requires step < 8 ==> Within(q, Mask(step))
    ensures CarrylessFrom(Congruent(q, a), b, step) == Congruent(r, MulFrom(a, b, step))
    ensures Within(r, 0x7F)
    decreases 8 - step
  {
    hide Add, Double, Halve, LowBit, Congruent, Plus, TimesX, KeepIf, Within;
    if step == 8 {
      r := 0;
      CongruentLinear(0, 0, 0, 0, 0);
      MaskGrows(0);
      WithinZero(0);
    } else {
      MaskGrows(step);
      var next := TimesXReduces(q, a);
      var rest := MulFromReduces(next, Double(a), Halve(b), step + 1);
      r := Add(LowBit(q, b), rest);
      CongruentLinear(0, 0, q, a, b);
      CongruentLinear(LowBit(q, b), LowBit(a, b), rest, MulFrom(Double(a), Halve(b), step + 1), b);
      WithinLinear(q, rest, b);
    }
  }

  lemma WithinZero(mask: bv8)
    ensures Within(0, mask)
  {
  }

  /**
   `Mul` is multiplication of polynomials modulo x^8 + x^4 + x^3 + x + 1: the
   unreduced product differs from it by a multiple of the modulus.
   */
  lemma MulIsProductModulo(a: bv8, b: bv8)
    ensures exists q: bv8 :: Carryless(a, b) == Plus(Multiple(q), Polynomial(0, Mul(a, b)))
  {
    CongruentLinear(0, a, 0, 0, 0);
    WithinZero(Mask(0));
    var r := MulFromReduces(0, a, b, 0);
    assert Carryless(a, b) == Plus(Multiple(r), Polynomial(0, Mul(a, b)));
  }

  // The high half of a multiple of the modulus determines it.
  lemma HighHalfInjective(q: bv8)
    requires Multiple(q).hi == 0
    ensures q == 0
  {
  }

  /** That remainder is the only one of degree below eight. */
  lemma RemainderIsUnique(q: bv8, r: bv8, s: bv8, t: bv8)
    requires Plus(Multiple(q), Polynomial(0, r)) == Plus(Multiple(s), Polynomial(0, t))
    ensures r == t
  {
    MultipleLinear(q, s);
    hide Add, Multiple;
    Interchange(Multiple(q).hi, 0, Multiple(s).hi, 0);
    AddIsGroup(0, 0, 0);
    AddIsGroup(Multiple(Add(q, s)).hi, 0, 0);
    AddCancels(Multiple(q).hi, Multiple(s).hi);
    AddIsGroup(Multiple(q).hi, 0, 0);
    AddIsGroup(Multiple(s).hi, 0, 0);
    HighHalfInjective(Add(q, s));
    AddCancels(q, s);
    AddCancels(Multiple(q).lo, Multiple(q).lo);
    AddLeftCancels(Multiple(q).lo, r, t);
  }

  lemma AddLeftCancels(a: bv8, b: bv8, c: bv8)
    requires Add(a, b) == Add(a, c)
    ensures b == c
  {
    hide Add;
    AddIsGroup(a, a, b);
    AddIsGroup(a, a, c);
    AddIsGroup(b, 0, 0);
    AddIsGroup(c, 0, 0);
  }
}
