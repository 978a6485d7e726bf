/**
 Byte-wise Shamir secret sharing over GF(2^8): splitting, Horner evaluation and
 recombination by Lagrange interpolation at zero.
 */
module Shamir {
  import opened Wrappers
  import Bytes
  import opened Gf256
  import opened Polynomials

  datatype ShamirError =
    | ThresholdTooLow
    | ThresholdAboveShareCount(threshold: nat, shares: nat)
    | EmptySecret
    | NotEnoughShares
    | DuplicateIndex(index: bv8)
    | LengthMismatch
    | MalformedShare
    | ChecksumMismatch
    | Entropy

  // One share: an x coordinate and one polynomial value per secret byte.
  datatype Share = Share(index: bv8, data: seq<bv8>)

  // A count that fits in a u8.
  type count = n: nat | n < 256

  // The x coordinate of share number `i`.
  function X(i: count): bv8 {
    i as bv8
  }

  lemma XInjective(i: count, j: count)
    ensures X(i) as int == i
    ensures X(i) == X(j) ==> i == j
  {
    CountAsByte(i);
    CountAsByte(j);
  }

  lemma CountAsByte(i: count)
    ensures X(i) as int == i
  {
    Bytes.ThroughEightBits(i);
  }

  lemma XOfZero()
    ensures X(0) == 0
  {
  }

  // ----- splitting -----

  // The coefficients of the polynomial for byte `b`, constant term excluded.
  function Row(coefficients: seq<bv8>, degree: nat, b: nat): (row: seq<bv8>)
    requires (b + 1) * degree <= |coefficients|
    ensures |row| == degree
  {
    RowStarts(degree, b);
    coefficients[b * degree..(b + 1) * degree]
  }

  lemma RowStarts(degree: nat, b: nat)
    ensures 0 <= b * degree && (b + 1) * degree == b * degree + degree
  {
  }

  lemma RowFits(degree: nat, b: nat, rows: nat)
    requires b < rows
    ensures (b + 1) * degree <= rows * degree
  {
    assert (rows - (b + 1)) * degree >= 0;
  }

  // The share at `index`: every byte's polynomial evaluated there.
  function ShareAt(secret: seq<bv8>, coefficients: seq<bv8>, degree: nat, index: bv8): (share: Share)
    requires |coefficients| == |secret| * degree
    ensures share.index == index && |share.data| == |secret|
  {
    Share(index, seq(|secret|, b requires 0 <= b < |secret| => ByteAt(secret, coefficients, degree, index, b)))
  }

  function ByteAt(secret: seq<bv8>, coefficients: seq<bv8>, degree: nat, index: bv8, b: nat): bv8
    requires |coefficients| == |secret| * degree && b < |secret|
  {
    RowFits(degree, b, |secret|);
    Eval([secret[b]] + Row(coefficients, degree, b), index)
  }

  lemma ByteAtRow(secret: seq<bv8>, coefficients: seq<bv8>, degree: nat, index: bv8, b: nat)
    requires |coefficients| == |secret| * degree && b < |secret|
    ensures (b + 1) * degree <= |coefficients|
    ensures ByteAt(secret, coefficients, degree, index, b)
         == Eval([secret[b]] + Row(coefficients, degree, b), index)
  {
    RowFits(degree, b, |secret|);
  }

  // What `split` hands out: the shares at 1, 2, .., n.
  function SharesOf(secret: seq<bv8>, coefficients: seq<bv8>, degree: nat, n: count): (shares: seq<Share>)
    requires |coefficients| == |secret| * degree
    ensures |shares| == n
    ensures forall k :: 0 <= k < n ==> shares[k] == ShareAt(secret, coefficients, degree, X(k + 1))
  {
    hide X, ShareAt;
    seq(n, k requires 0 <= k < n => ShareAt(secret, coefficients, degree, X(k + 1)))
  }

  /** Horner's rule, highest coefficient first. */
  method Evaluate(constant: bv8, coefficients: seq<bv8>, x: bv8) returns (value: bv8)
    ensures value == Eval([constant] + coefficients, x)
  {
    hide Add, Mul;
    var acc: bv8 := 0;
    var i := |coefficients|;
    while i > 0
      invariant 0 <= i <= |coefficients|
      invariant acc == Eval(coefficients[i..], x)
    {
      i := i - 1;
      assert coefficients[i..][1..] == coefficients[i + 1..];
      Commutative(acc, x);
      AddIsGroup(Mul(acc, x), coefficients[i], 0);
      var product := MulLoop(acc, x);
      acc := Add(product, coefficients[i]);
    }
    assert ([constant] + coefficients)[1..] == coefficients;
    Commutative(acc, x);
    AddIsGroup(Mul(acc, x), constant, 0);
    var product := MulLoop(acc, x);
    value := Add(product, constant);
  }

  function SplitOf(secret: seq<bv8>, threshold: count, shares: count, random: Option<seq<bv8>>)
    : Result<seq<Share>, ShamirError>
    requires threshold >= 1 && random.Some? ==> |random.value| == |secret| * (threshold - 1)
  {
    if threshold < 1 then Err(ThresholdTooLow)
    else if threshold > shares then Err(ThresholdAboveShareCount(threshold, shares))
    else if secret == [] then Err(EmptySecret)
    else if threshold == 1 then Ok(SharesOf(secret, [], 0, shares))
    else if random.None? then Err(Entropy)
    else Ok(SharesOf(secret, random.value, threshold - 1, shares))
  }

  /**
   Split `secret` into `shares` pieces. `random` is what the entropy source
   fills the coefficient buffer with, or `None` if it fails; it is consulted
   only when there are coefficients to fill.
   */
  method Split(secret: seq<bv8>, threshold: count, shares: count, random: Option<seq<bv8>>)
    returns (r: Result<seq<Share>, ShamirError>)
    requires threshold >= 1 && random.Some? ==> |random.value| == |secret| * (threshold - 1)
    ensures r == SplitOf(secret, threshold, shares, random)
  {
    hide X, Eval, ByteAt;
    if threshold < 1 {
      return Err(ThresholdTooLow);
    }
    if threshold > shares {
      return Err(ThresholdAboveShareCount(threshold, shares));
    }
    if |secret| == 0 {
      return Err(EmptySecret);
    }
    var degree := threshold - 1;
    var coefficients: seq<bv8> := [];
    if degree > 0 {
      if random.None? {
        return Err(Entropy);
      }
      coefficients := random.value;
    }
    var out: seq<Share> := [];
    for index := 1 to shares + 1
      invariant |out| == index - 1
      invariant forall k :: 0 <= k < |out| ==> out[k] == ShareAt(secret, coefficients, degree, X(k + 1))
    {
      var data: seq<bv8> := [];
      for b := 0 to |secret|
        invariant |data| == b
        invariant forall k :: 0 <= k < b ==> data[k] == ByteAt(secret, coefficients, degree, X(index), k)
      {
        RowFits(degree, b, |secret|);
        ByteAtRow(secret, coefficients, degree, X(index), b);
        var value := Evaluate(secret[b], Row(coefficients, degree, b), X(index));
        data := data + [value];
      }
      assert Share(X(index), data) == ShareAt(secret, coefficients, degree, X(index));
      out := out + [Share(X(index), data)];
    }
    assert out == SharesOf(secret, coefficients, degree, shares);
    r := Ok(out);
  }

  // ----- recombining -----

  function Indices(shares: seq<Share>): (xs: seq<bv8>)
    ensures |xs| == |shares|
    ensures forall k :: 0 <= k < |shares| ==> xs[k] == shares[k].index
  {
    seq(|shares|, k requires 0 <= k < |shares| => shares[k].index)
  }

  // Byte `b` of every share.
  function Column(shares: seq<Share>, b: nat): (ys: seq<bv8>)
    requires forall k :: 0 <= k < |shares| ==> b < |shares[k].data|
    ensures |ys| == |shares|
    ensures forall k :: 0 <= k < |shares| ==> ys[k] == shares[k].data[b]
  {
    seq(|shares|, k requires 0 <= k < |shares| => shares[k].data[b])
  }

  // The value at zero of the polynomial of least length through the points.
  function ValueAtZero(xs: seq<bv8>, ys: seq<bv8>): bv8
    requires |xs| == |ys|
  {
    Eval(Interpolant(xs, ys, |xs|), 0)
  }

  predicate NewIndex(shares: seq<Share>, position: nat)
    requires position < |shares|
  {
    forall k :: 0 <= k < position ==> shares[k].index != shares[position].index
  }

  // The first complaint, if any, about the shares from `position` on.
  function Fault(shares: seq<Share>, position: nat): Option<ShamirError>
    requires position <= |shares|
    decreases |shares| - position
  {
    if position == |shares| then None
    else if |shares[position].data| != |shares[0].data| then Some(LengthMismatch)
    else if !NewIndex(shares, position) then Some(DuplicateIndex(shares[position].index))
    else Fault(shares, position + 1)
  }

  lemma {:induction false} FaultFree(shares: seq<Share>, position: nat)
    requires position <= |shares|
    ensures Fault(shares, position).None? <==>
            forall k :: position <= k < |shares| ==>
              |shares[k].data| == |shares[0].data| && NewIndex(shares, k)
    decreases |shares| - position
  {
    if position < |shares| {
      FaultFree(shares, position + 1);
    }
  }

  lemma SoundShares(shares: seq<Share>)
    requires Fault(shares, 0).None?
    ensures forall k :: 0 <= k < |shares| ==> |shares[k].data| == |shares[0].data|
    ensures Distinct(Indices(shares))
  {
    FaultFree(shares, 0);
    forall i, j | 0 <= i < j < |shares|
      ensures Indices(shares)[i] != Indices(shares)[j]
    {
      assert NewIndex(shares, j);
    }
  }

  function Combined(shares: seq<Share>): Result<seq<bv8>, ShamirError> {
    if shares == [] then Err(NotEnoughShares)
    else if Fault(shares, 0).Some? then Err(Fault(shares, 0).value)
    else
      SoundShares(shares);
      Ok(seq(|shares[0].data|, b requires 0 <= b < |shares[0].data| =>
        ValueAtZero(Indices(shares), Column(shares, b))))
  }

  /** Recover the secret: check the shares, then interpolate every byte at zero. */
  method Combine(shares: seq<Share>) returns (r: Result<seq<bv8>, ShamirError>)
    ensures r == Combined(shares)
  {
    if |shares| == 0 {
      return Err(NotEnoughShares);
    }
    var length := |shares[0].data|;
    for position := 0 to |shares|
      invariant Fault(shares, 0) == Fault(shares, position)
    {
      if |shares[position].data| != length {
        return Err(LengthMismatch);
      }
      if exists k :: 0 <= k < position && shares[k].index == shares[position].index {
        return Err(DuplicateIndex(shares[position].index));
      }
    }
    SoundShares(shares);
    var secret: seq<bv8> := [];
    for b := 0 to length
      invariant |secret| == b
      invariant forall k :: 0 <= k < b ==> secret[k] == ValueAtZero(Indices(shares), Column(shares, k))
    {
      var accumulated := CombineByte(shares, b);
      secret := secret + [accumulated];
    }
    assert Combined(shares).Ok? && secret == Combined(shares).value;
    r := Ok(secret);
  }

  /** The two inner loops: the sum over shares of a value times its basis. */
  method CombineByte(shares: seq<Share>, b: nat) returns (accumulated: bv8)
    requires forall k :: 0 <= k < |shares| ==> b < |shares[k].data|
    requires Distinct(Indices(shares))
    ensures accumulated == ValueAtZero(Indices(shares), Column(shares, b))
  {
    hide Add, Mul, Inverse, Div, BasisPoly, Eval;
    ghost var xs, ys := Indices(shares), Column(shares, b);
    accumulated := 0;
    EvalAllZero(Interpolant(xs, ys, 0), 0);
    for i := 0 to |shares|
      invariant accumulated == Eval(Interpolant(xs, ys, i), 0)
    {
      var basis: bv8 := 1;
      BasisPolyStart(xs, i);
      EvalOne(0);
      for j := 0 to |shares|
        invariant basis == Eval(BasisPoly(xs, i, j), 0)
      {
        if i == j {
          BasisPolySkip(xs, i);
        } else {
          BasisPolyStep(xs, i, j, 0);
          AddIsGroup(xs[j], 0, 0);
          var inverse := InverseLoop(Add(shares[i].index, shares[j].index));
          var quotient := MulLoop(shares[j].index, inverse);
          DivIsMulInverse(shares[j].index, Add(shares[i].index, shares[j].index));
          basis := MulLoop(basis, quotient);
        }
      }
      EvalSum(Interpolant(xs, ys, i), Scale(ys[i], BasisPoly(xs, i, |xs|)), 0);
      EvalScale(ys[i], BasisPoly(xs, i, |xs|), 0);
      var term := MulLoop(shares[i].data[b], basis);
      accumulated := Add(accumulated, term);
    }
  }

  lemma DivIsMulInverse(a: bv8, b: bv8)
    ensures Div(a, b) == Mul(a, Inverse(b))
  {
  }

  // ----- any threshold of shares recovers the secret -----

  // Every share lies on the polynomials that `coefficients` and `secret` define.
  predicate OnPolynomials(shares: seq<Share>, secret: seq<bv8>, coefficients: seq<bv8>, degree: nat)
    requires |coefficients| == |secret| * degree
  {
    forall k :: 0 <= k < |shares| ==> shares[k] == ShareAt(secret, coefficients, degree, shares[k].index)
  }

  lemma PointsRecoverSecret(shares: seq<Share>, secret: seq<bv8>, coefficients: seq<bv8>, degree: nat)
    requires |coefficients| == |secret| * degree
    requires OnPolynomials(shares, secret, coefficients, degree)
    requires Distinct(Indices(shares)) && |shares| > degree
    ensures Combined(shares) == Ok(secret)
  {
    hide Eval, Interpolant;
    forall k | 0 <= k < |shares|
      ensures |shares[k].data| == |shares[0].data| && NewIndex(shares, k)
    {
      forall m | 0 <= m < k
        ensures shares[m].index != shares[k].index
      {
        assert Indices(shares)[m] != Indices(shares)[k];
      }
    }
    FaultFree(shares, 0);
    var xs := Indices(shares);
    forall b | 0 <= b < |secret|
      ensures ValueAtZero(xs, Column(shares, b)) == secret[b]
    {
      RowFits(degree, b, |secret|);
      var p := [secret[b]] + Row(coefficients, degree, b);
      var padded := p + seq(|xs| - |p|, _ => 0);
      var ys := Column(shares, b);
      forall k | 0 <= k < |xs|
        ensures Eval(padded, xs[k]) == Eval(Interpolant(xs, ys, |xs|), xs[k])
      {
        EvalPadded(p, |xs| - |p|, xs[k]);
        InterpolantAt(xs, ys, |xs|, k);
        assert shares[k].data[b] == ByteAt(secret, coefficients, degree, xs[k], b);
      }
      AgreeingPolynomials(padded, Interpolant(xs, ys, |xs|), xs);
      EvalAtZero(padded);
    }
    assert Combined(shares).Ok? && Combined(shares).value == secret;
  }

  /**
   Any `threshold` or more of the shares handed out, in any order, recombine
   to the secret, whatever the coefficients were.
   */
  lemma AnyThresholdRecovers(secret: seq<bv8>, coefficients: seq<bv8>, threshold: count, n: count, chosen: seq<Share>)
    requires 1 <= threshold <= n && |coefficients| == |secret| * (threshold - 1)
    requires forall k :: 0 <= k < |chosen| ==> chosen[k] in SharesOf(secret, coefficients, threshold - 1, n)
    requires forall j, k :: 0 <= j < k < |chosen| ==> chosen[j] != chosen[k]
    requires |chosen| >= threshold
    ensures Combined(chosen) == Ok(secret)
  {
    hide X;
    assert OnPolynomials(chosen, secret, coefficients, threshold - 1);
    forall j, k | 0 <= j < k < |chosen|
      ensures Indices(chosen)[j] != Indices(chosen)[k]
    {
      assert chosen[j] == ShareAt(secret, coefficients, threshold - 1, chosen[j].index);
      assert chosen[k] == ShareAt(secret, coefficients, threshold - 1, chosen[k].index);
    }
    PointsRecoverSecret(chosen, secret, coefficients, threshold - 1);
  }

  /** The shares handed out differ in their index, and no index is zero. */
  lemma SharesAreDistinct(secret: seq<bv8>, coefficients: seq<bv8>, degree: nat, n: count)
    requires |coefficients| == |secret| * degree
    ensures forall k :: 0 <= k < n ==> SharesOf(secret, coefficients, degree, n)[k].index != 0
    ensures Distinct(Indices(SharesOf(secret, coefficients, degree, n)))
  {
    hide X, ShareAt;
    var shares := SharesOf(secret, coefficients, degree, n);
    forall k | 0 <= k < n
      ensures shares[k].index == X(k + 1) && shares[k].index != 0
    {
      XInjective(k + 1, 0);
      XOfZero();
    }
    forall j, k | 0 <= j < k < n
      ensures Indices(shares)[j] != Indices(shares)[k]
    {
      XInjective(j + 1, k + 1);
    }
  }

  // ----- fewer than a threshold of shares fit every secret equally -----

  predicate Explains(coefficients: seq<bv8>, secret: seq<bv8>, shares: seq<Share>)
  {
    |coefficients| == |secret| * |shares| && OnPolynomials(shares, secret, coefficients, |shares|)
  }

  /**
   For any threshold - 1 shares with distinct nonzero indices, and any
   candidate secret of their length, exactly one coefficient vector would have
   produced those shares.
   */
  lemma {:induction false} EverySecretEquallyConsistent(secret: seq<bv8>, shares: seq<Share>)
    returns (coefficients: seq<bv8>)
    requires Distinct(Indices(shares))
    requires forall k :: 0 <= k < |shares| ==> shares[k].index != 0 && |shares[k].data| == |secret|
    ensures Explains(coefficients, secret, shares)
    ensures forall other: seq<bv8> :: Explains(other, secret, shares) ==> other == coefficients
    decreases |secret|
  {
    hide Eval, Explains;
    if secret == [] {
      coefficients := [];
      NothingToExplain(shares);
    } else {
      var last := |secret| - 1;
      var front := EverySecretEquallyConsistent(secret[..last], WithoutLastByte(shares));
      var p := LastPolynomial(secret[last], shares, last);
      coefficients := front + p[1..];
      AppendedRowExplains(secret, shares, front, p[1..], p);
      forall other: seq<bv8> | Explains(other, secret, shares)
        ensures other == coefficients
      {
        var otherFront, otherRow := SplitRowExplains(secret, shares, other);
        assert otherFront == front;
        assert otherRow == ([secret[last]] + otherRow)[1..];
      }
    }
  }

  lemma NothingToExplain(shares: seq<Share>)
    requires forall k :: 0 <= k < |shares| ==> shares[k].data == []
    ensures forall other: seq<bv8> :: Explains(other, [], shares) <==> other == []
  {
  }

  // The one polynomial through a candidate byte at zero and byte `b` of every share.
  lemma LastPolynomial(byte: bv8, shares: seq<Share>, b: nat) returns (p: Poly)
    requires Distinct(Indices(shares))
    requires forall k :: 0 <= k < |shares| ==> shares[k].index != 0 && b < |shares[k].data|
    ensures |p| == |shares| + 1 && p[0] == byte
    ensures forall k :: 0 <= k < |shares| ==> Eval(p, shares[k].index) == shares[k].data[b]
    ensures forall row: seq<bv8> ::
              |row| == |shares|
              && (forall k :: 0 <= k < |shares| ==> Eval([byte] + row, shares[k].index) == shares[k].data[b])
              ==> [byte] + row == p
  {
    hide Eval;
    var xs, ys := [0] + Indices(shares), [byte] + Column(shares, b);
    forall j, k | 0 <= j < k < |xs|
      ensures xs[j] != xs[k]
    {
      assert xs[k] == Indices(shares)[k - 1];
      if j > 0 {
        assert xs[j] == Indices(shares)[j - 1];
      }
    }
    p := InterpolationExistsUniquely(xs, ys);
    EvalAtZero(p);
    assert xs[0] == 0 && ys[0] == byte;
    forall k | 0 <= k < |shares|
      ensures Eval(p, shares[k].index) == shares[k].data[b]
    {
      assert xs[k + 1] == shares[k].index && ys[k + 1] == shares[k].data[b];
    }
    forall row: seq<bv8> | |row| == |shares|
                        && (forall k :: 0 <= k < |shares| ==> Eval([byte] + row, shares[k].index) == shares[k].data[b])
      ensures [byte] + row == p
    {
      assert forall k :: 0 <= k < |shares| ==> xs[k + 1] == shares[k].index && ys[k + 1] == shares[k].data[b];
      LastByteDetermines(byte, row, xs, ys, p, shares);
    }
  }

  lemma LastByteDetermines(byte: bv8, row: seq<bv8>, xs: seq<bv8>, ys: seq<bv8>, p: Poly, shares: seq<Share>)
    requires |row| == |shares| && |xs| == |ys| == |p| == |shares| + 1
    requires xs[0] == 0 && ys[0] == byte
    requires forall k :: 0 <= k < |shares| ==> xs[k + 1] == shares[k].index
    requires forall k :: 0 <= k < |shares| ==> ys[k + 1] == Eval([byte] + row, shares[k].index)
    requires forall q: Poly :: |q| == |xs| && (forall k :: 0 <= k < |xs| ==> Eval(q, xs[k]) == ys[k]) ==> q == p
    ensures [byte] + row == p
  {
    hide Eval;
    var q := [byte] + row;
    forall k | 0 <= k < |xs|
      ensures Eval(q, xs[k]) == ys[k]
    {
      if k == 0 {
        EvalAtZero(q);
      } else {
        assert xs[(k - 1) + 1] == shares[k - 1].index;
      }
    }
    assert q == p;
  }

  function WithoutLastByte(shares: seq<Share>): (r: seq<Share>)
    requires forall k :: 0 <= k < |shares| ==> |shares[k].data| > 0
    ensures |r| == |shares|
    ensures forall k :: 0 <= k < |r| ==> r[k] == Share(shares[k].index, shares[k].data[..|shares[k].data| - 1])
    ensures Indices(r) == Indices(shares)
  {
    seq(|shares|, k requires 0 <= k < |shares| => Share(shares[k].index, shares[k].data[..|shares[k].data| - 1]))
  }

  lemma RowOfPrefix(coefficients: seq<bv8>, degree: nat, b: nat, rows: nat)
    requires b < rows && rows * degree <= |coefficients|
    ensures (b + 1) * degree <= rows * degree
    ensures Row(coefficients[..rows * degree], degree, b) == Row(coefficients, degree, b)
  {
    RowFits(degree, b, rows);
    RowStarts(degree, b);
  }

  // What one share says about the last byte and about the bytes before it.
  lemma ShareAtSplits(secret: seq<bv8>, coefficients: seq<bv8>, degree: nat, index: bv8)
    requires secret != [] && |coefficients| == |secret| * degree
    ensures (|secret| - 1) * degree <= |coefficients|
    ensures |coefficients[..(|secret| - 1) * degree]| == |secret[..|secret| - 1]| * degree
    ensures ShareAt(secret, coefficients, degree, index).data
         == ShareAt(secret[..|secret| - 1], coefficients[..(|secret| - 1) * degree], degree, index).data
          + [Eval([secret[|secret| - 1]] + coefficients[(|secret| - 1) * degree..], index)]
  {
    hide Eval;
    var last := |secret| - 1;
    RowStarts(degree, last);
    var front := coefficients[..last * degree];
    forall b | 0 <= b < last
      ensures ByteAt(secret, coefficients, degree, index, b) == ByteAt(secret[..last], front, degree, index, b)
    {
      RowOfPrefix(coefficients, degree, b, last);
      RowFits(degree, b, |secret|);
    }
    assert Row(coefficients, degree, last) == coefficients[last * degree..];
  }

  lemma AppendedRowExplains(secret: seq<bv8>, shares: seq<Share>, front: seq<bv8>, row: seq<bv8>, p: Poly)
    requires secret != [] && forall k :: 0 <= k < |shares| ==> |shares[k].data| == |secret|
    requires Explains(front, secret[..|secret| - 1], WithoutLastByte(shares))
    requires |row| == |shares| && p == [secret[|secret| - 1]] + row
    requires forall k :: 0 <= k < |shares| ==> Eval(p, shares[k].index) == shares[k].data[|secret| - 1]
    ensures Explains(front + row, secret, shares)
  {
    hide Eval;
    var degree, last := |shares|, |secret| - 1;
    RowStarts(degree, last);
    var whole := front + row;
    assert whole[..last * degree] == front && whole[last * degree..] == row;
    forall k | 0 <= k < |shares|
      ensures shares[k] == ShareAt(secret, whole, degree, shares[k].index)
    {
      ShareAtSplits(secret, whole, degree, shares[k].index);
      assert WithoutLastByte(shares)[k] == ShareAt(secret[..last], front, degree, shares[k].index);
      assert shares[k].data == shares[k].data[..last] + [shares[k].data[last]];
    }
  }

  lemma SplitRowExplains(secret: seq<bv8>, shares: seq<Share>, whole: seq<bv8>)
    returns (front: seq<bv8>, row: seq<bv8>)
    requires secret != [] && forall k :: 0 <= k < |shares| ==> |shares[k].data| == |secret|
    requires Explains(whole, secret, shares)
    ensures whole == front + row && |row| == |shares|
    ensures Explains(front, secret[..|secret| - 1], WithoutLastByte(shares))
    ensures forall k :: 0 <= k < |shares| ==>
              Eval([secret[|secret| - 1]] + row, shares[k].index) == shares[k].data[|secret| - 1]
  {
    hide Eval;
    var degree, last := |shares|, |secret| - 1;
    RowStarts(degree, last);
    front, row := whole[..last * degree], whole[last * degree..];
    forall k | 0 <= k < |shares|
      ensures WithoutLastByte(shares)[k] == ShareAt(secret[..last], front, degree, shares[k].index)
      ensures Eval([secret[last]] + row, shares[k].index) == shares[k].data[last]
    {
      ShareAtSplits(secret, whole, degree, shares[k].index);
    }
  }
}
