/** Normalised vectors over the reals: similarities lie in [-1, 1].  Rounding is not modelled. */
module UnitVectors {

  type Vector = seq<real>

  function SumSquares(v: Vector): real {
    if v == [] then 0.0 else v[0] * v[0] + SumSquares(v[1..])
  }

  /** `_dot`; the caller has checked that the lengths agree. */
  function Dot(a: Vector, b: Vector): real
    requires |a| == |b|
  {
    if a == [] then 0.0 else a[0] * b[0] + Dot(a[1..], b[1..])
  }

  function Scale(v: Vector, c: real): (w: Vector)
    ensures |w| == |v|
  {
    seq(|v|, i requires 0 <= i < |v| => v[i] * c)
  }

  /** `sqrt` is a square root on the non-negative reals. */
  ghost predicate IsSquareRoot(sqrt: real -> real) {
    forall x: real :: x >= 0.0 ==> sqrt(x) >= 0.0 && sqrt(x) * sqrt(x) == x
  }

  /** `_normalize`: a zero vector stays as it is. */
  function Normalize(sqrt: real -> real, v: Vector): (u: Vector)
    ensures |u| == |v|
  {
    var norm := sqrt(SumSquares(v));
    if norm == 0.0 then v else seq(|v|, i requires 0 <= i < |v| => v[i] / norm)
  }

  lemma {:induction false} SumSquaresNonNegative(v: Vector)
    ensures SumSquares(v) >= 0.0
  {
    if v != [] { SumSquaresNonNegative(v[1..]); }
  }

  lemma ScaleTail(v: Vector, c: real)
    requires v != []
    ensures Scale(v, c)[1..] == Scale(v[1..], c) && Scale(v, c)[0] == v[0] * c
  {
    var a, b := Scale(v, c)[1..], Scale(v[1..], c);
    forall i | 0 <= i < |b| ensures a[i] == b[i] {
      assert a[i] == Scale(v, c)[i + 1] == v[i + 1] * c;
      assert b[i] == v[1..][i] * c;
    }
  }

  lemma {:induction false} SumSquaresScaled(v: Vector, c: real)
    ensures SumSquares(Scale(v, c)) == c * c * SumSquares(v)
  {
    if v != [] {
      ScaleTail(v, c);
      SumSquaresScaled(v[1..], c);
      Square(v[0], c);
      Distribute(c * c, v[0] * v[0], SumSquares(v[1..]));
    }
  }

  lemma Square(x: real, c: real)
    ensures (x * c) * (x * c) == c * c * (x * x)
  {
    assert (x * c) * (x * c) == x * (c * (x * c)) == x * (x * (c * c));
  }

  lemma Distribute(a: real, x: real, y: real)
    ensures a * (x + y) == a * x + a * y
  {
  }

  lemma NormalizeIsScale(sqrt: real -> real, v: Vector)
    requires sqrt(SumSquares(v)) != 0.0
    ensures Normalize(sqrt, v) == Scale(v, 1.0 / sqrt(SumSquares(v)))
  {
    var n := sqrt(SumSquares(v));
    var a, b := Normalize(sqrt, v), Scale(v, 1.0 / n);
    forall i | 0 <= i < |v| ensures a[i] == b[i] {
      assert a[i] == v[i] / n && b[i] == v[i] * (1.0 / n);
      DivideIsMultiply(v[i], n);
    }
    assert a == b;
  }

  lemma DivideIsMultiply(x: real, n: real)
    requires n != 0.0
    ensures x / n == x * (1.0 / n)
  {
    assert (x * (1.0 / n)) * n == x * ((1.0 / n) * n);
  }

  /** Normalising gives length one, or leaves a vector of length zero. */
  lemma NormalizedLength(sqrt: real -> real, v: Vector)
    requires IsSquareRoot(sqrt)
    ensures SumSquares(Normalize(sqrt, v)) == if SumSquares(v) == 0.0 then 0.0 else 1.0
  {
    SumSquaresNonNegative(v);
    var s := SumSquares(v);
    var n := sqrt(s);
    assert n * n == s;
    if s != 0.0 {
      NormalizeIsScale(sqrt, v);
      SumSquaresScaled(v, 1.0 / n);
      InverseSquare(n, s);
    } else {
      assert n == 0.0 by { if n != 0.0 { Positive(n); } }
    }
  }

  lemma Positive(n: real)
    requires n != 0.0
    ensures n * n > 0.0
  {
  }

  lemma InverseSquare(n: real, s: real)
    requires n * n == s && n != 0.0
    ensures (1.0 / n) * (1.0 / n) * s == 1.0
  {
    var i := 1.0 / n;
    assert i * n == 1.0;
    assert i * i * (n * n) == (i * n) * (i * n);
  }

  /** Twice a dot product never exceeds the two squared lengths together, in either sign. */
  lemma {:induction false} DotBound(a: Vector, b: Vector)
    requires |a| == |b|
    ensures -(SumSquares(a) + SumSquares(b)) <= 2.0 * Dot(a, b) <= SumSquares(a) + SumSquares(b)
  {
    if a != [] {
      DotBound(a[1..], b[1..]);
      ProductBound(a[0], b[0]);
    }
  }

  lemma ProductBound(x: real, y: real)
    ensures -(x * x + y * y) <= 2.0 * (x * y) <= x * x + y * y
  {
    assert (x - y) * (x - y) == x * x - 2.0 * (x * y) + y * y;
    assert (x + y) * (x + y) == x * x + 2.0 * (x * y) + y * y;
    NonNegativeSquare(x - y);
    NonNegativeSquare(x + y);
  }

  lemma NonNegativeSquare(x: real)
    ensures x * x >= 0.0
  {
  }

  /** Every similarity lies in [-1, 1], zero vectors included. */
  lemma SimilarityInRange(sqrt: real -> real, a: Vector, b: Vector)
    requires IsSquareRoot(sqrt) && |a| == |b|
    ensures -1.0 <= Dot(Normalize(sqrt, a), Normalize(sqrt, b)) <= 1.0
  {
    NormalizedLength(sqrt, a);
    NormalizedLength(sqrt, b);
    DotBound(Normalize(sqrt, a), Normalize(sqrt, b));
  }

  lemma {:induction false} DotSelf(v: Vector)
    ensures Dot(v, v) == SumSquares(v)
  {
    if v != [] { DotSelf(v[1..]); }
  }

  lemma RootsAgree(x: real, y: real)
    requires x >= 0.0 && y >= 0.0 && x * x == y * y
    ensures x == y
  {
    if x < y { StrictSquare(x, y); }
    if y < x { StrictSquare(y, x); }
  }

  lemma StrictSquare(x: real, y: real)
    requires 0.0 <= x < y
    ensures x * x < y * y
  {
    PositiveProduct(y - x, y + x);
    assert (y - x) * (y + x) == y * y - x * x;
  }

  lemma PositiveProduct(p: real, q: real)
    requires p > 0.0 && q > 0.0
    ensures p * q > 0.0
  {
  }

  lemma NormalizedAt(sqrt: real -> real, v: Vector, n: real)
    requires sqrt(SumSquares(v)) == n != 0.0
    ensures Normalize(sqrt, v) == seq(|v|, i requires 0 <= i < |v| => v[i] / n)
  {
  }

  lemma QuotientsAgree(v: Vector, c: real, n: real, m: real)
    requires c > 0.0 && n != 0.0 && m == c * n && m != 0.0
    ensures var w := Scale(v, c);
            seq(|w|, i requires 0 <= i < |w| => w[i] / m) == seq(|v|, i requires 0 <= i < |v| => v[i] / n)
  {
    forall i | 0 <= i < |v| ensures Scale(v, c)[i] / m == v[i] / n {
      assert Scale(v, c)[i] == v[i] * c;
      CancelFactor(v[i], c, n);
    }
  }

  /** A positive multiple of a non-zero vector normalises to the same vector, so it scores exactly one
      against it. */
  lemma ScaledVectorScoresOne(sqrt: real -> real, v: Vector, c: real)
    requires IsSquareRoot(sqrt) && SumSquares(v) != 0.0 && c > 0.0
    ensures Normalize(sqrt, Scale(v, c)) == Normalize(sqrt, v)
    ensures Dot(Normalize(sqrt, Scale(v, c)), Normalize(sqrt, v)) == 1.0
  {
    hide SumSquares;
    hide Scale;
    hide Normalize;
    hide Dot;
    SumSquaresNonNegative(v);
    SumSquaresScaled(v, c);
    SumSquaresNonNegative(Scale(v, c));
    var s := SumSquares(v);
    var n, m := sqrt(s), sqrt(SumSquares(Scale(v, c)));
    assert n * n == s && n != 0.0;
    ScaledRoot(c, n, s, m);
    NormalizedAt(sqrt, v, n);
    NormalizedAt(sqrt, Scale(v, c), m);
    QuotientsAgree(v, c, n, m);
    NormalizedLength(sqrt, v);
    DotSelf(Normalize(sqrt, v));
  }

  lemma ScaledRoot(c: real, n: real, s: real, m: real)
    requires c > 0.0 && n >= 0.0 && n != 0.0 && n * n == s && m >= 0.0 && m * m == c * c * s
    ensures m == c * n && m != 0.0
  {
    Square(n, c);
    assert n * c > 0.0;
    RootsAgree(m, n * c);
  }

  lemma CancelFactor(x: real, c: real, n: real)
    requires c > 0.0 && n != 0.0 && c * n != 0.0
    ensures (x * c) / (c * n) == x / n
  {
    var q := x / n;
    assert q * n == x;
    assert q * (c * n) == (q * n) * c;
  }

  // ---------------------------------------------------------------- what the dot product is

  function Add(a: Vector, b: Vector): (w: Vector)
    requires |a| == |b|
    ensures |w| == |a|
  {
    seq(|a|, i requires 0 <= i < |a| => a[i] + b[i])
  }

  /** One at `i` and zero elsewhere. */
  function Axis(n: nat, i: nat): (w: Vector)
    ensures |w| == n
  {
    seq(n, j requires 0 <= j < n => if j == i then 1.0 else 0.0)
  }

  lemma AddTail(a: Vector, b: Vector)
    requires |a| == |b| && a != []
    ensures Add(a, b)[1..] == Add(a[1..], b[1..]) && Add(a, b)[0] == a[0] + b[0]
  {
    forall i | 0 <= i < |a| - 1 ensures Add(a, b)[1..][i] == Add(a[1..], b[1..])[i] {
      assert a[1..][i] == a[i + 1] && b[1..][i] == b[i + 1];
    }
  }

  lemma DotUnfold(a: Vector, b: Vector)
    requires |a| == |b|
    ensures Dot(a, b) == if a == [] then 0.0 else a[0] * b[0] + Dot(a[1..], b[1..])
  {
  }

  lemma {:induction false} DotSymmetric(a: Vector, b: Vector)
    requires |a| == |b|
    ensures Dot(a, b) == Dot(b, a)
  {
    if a != [] { DotSymmetric(a[1..], b[1..]); }
  }

  lemma {:induction false} DotScaled(a: Vector, b: Vector, c: real)
    requires |a| == |b|
    ensures Dot(Scale(a, c), b) == c * Dot(a, b)
  {
    hide Scale;
    hide Dot;
    DotUnfold(a, b);
    DotUnfold(Scale(a, c), b);
    if a != [] {
      ScaleTail(a, c);
      DotScaled(a[1..], b[1..], c);
      Distribute(c, a[0] * b[0], Dot(a[1..], b[1..]));
      Rotate(a[0], c, b[0]);
    }
  }

  lemma Rotate(x: real, c: real, y: real)
    ensures x * c * y == c * (x * y)
  {
  }

  lemma {:induction false} DotAdded(a: Vector, b: Vector, d: Vector)
    requires |a| == |b| == |d|
    ensures Dot(Add(a, b), d) == Dot(a, d) + Dot(b, d)
  {
    hide Add;
    hide Dot;
    DotUnfold(a, d);
    DotUnfold(b, d);
    DotUnfold(Add(a, b), d);
    if a != [] {
      AddTail(a, b);
      DotAdded(a[1..], b[1..], d[1..]);
      Distribute(d[0], a[0], b[0]);
    }
  }

  lemma AxisTail(n: nat, i: nat)
    requires n > 0
    ensures Axis(n, i)[0] == if i == 0 then 1.0 else 0.0
    ensures Axis(n, i)[1..] == if i == 0 then Axis(n - 1, n) else Axis(n - 1, i - 1)
  {
  }

  lemma {:induction false} DotAxis(a: Vector, i: nat)
    ensures Dot(a, Axis(|a|, i)) == if i < |a| then a[i] else 0.0
  {
    hide Axis;
    hide Dot;
    DotUnfold(a, Axis(|a|, i));
    if a != [] {
      AxisTail(|a|, i);
      if i == 0 {
        DotAxis(a[1..], |a|);
      } else {
        DotAxis(a[1..], i - 1);
      }
    }
  }

  /** The dot product is the one symmetric function, linear in each argument, that reads a coordinate off
      against its axis. */
  lemma DotLaws(a: Vector, b: Vector, d: Vector, c: real)
    requires |a| == |b| == |d|
    ensures Dot(a, b) == Dot(b, a)
    ensures Dot(Scale(a, c), b) == c * Dot(a, b) == Dot(a, Scale(b, c))
    ensures Dot(Add(a, b), d) == Dot(a, d) + Dot(b, d) && Dot(d, Add(a, b)) == Dot(d, a) + Dot(d, b)
    ensures forall i: nat | i < |a| :: Dot(a, Axis(|a|, i)) == a[i]
  {
    hide *;
    DotSymmetric(a, b);
    DotScaled(a, b, c);
    DotScaled(b, a, c);
    DotSymmetric(Scale(b, c), a);
    DotAdded(a, b, d);
    DotSymmetric(Add(a, b), d);
    DotSymmetric(a, d);
    DotSymmetric(b, d);
    forall i: nat | i < |a| ensures Dot(a, Axis(|a|, i)) == a[i] { DotAxis(a, i); }
  }

  lemma ScaleTwice(v: Vector, c: real, d: real)
    ensures Scale(Scale(v, c), d) == Scale(v, c * d)
  {
    forall i | 0 <= i < |v| ensures Scale(Scale(v, c), d)[i] == Scale(v, c * d)[i] {
      Product(v[i], c, d);
    }
  }

  lemma Product(x: real, c: real, d: real)
    ensures x * c * d == x * (c * d)
  {
  }

  lemma ScaleByOne(v: Vector)
    ensures Scale(v, 1.0) == v
  {
    assert forall i | 0 <= i < |v| :: Scale(v, 1.0)[i] == v[i];
  }

  /** Normalising divides by the length, and leaves a vector of length zero alone. */
  lemma NormalizeKeepsDirection(sqrt: real -> real, v: Vector)
    ensures var length := sqrt(Dot(v, v));
            if length == 0.0 then Normalize(sqrt, v) == v else Scale(Normalize(sqrt, v), length) == v
  {
    DotSelf(v);
    var n := sqrt(SumSquares(v));
    hide *;
    if n == 0.0 {
      NormalizeOfZero(sqrt, v);
    } else {
      NormalizeIsScale(sqrt, v);
      var i := Inverse(n);
      ScaleTwice(v, i, n);
      ScaleByOne(v);
      assert Scale(v, i * n) == Scale(v, 1.0);
    }
  }

  lemma NormalizeOfZero(sqrt: real -> real, v: Vector)
    requires sqrt(SumSquares(v)) == 0.0
    ensures Normalize(sqrt, v) == v
  {
  }

  lemma Inverse(n: real) returns (i: real)
    requires n != 0.0
    ensures i == 1.0 / n && i * n == 1.0
  {
    i := 1.0 / n;
  }

  lemma NormalizeNegated(sqrt: real -> real, v: Vector)
    ensures Normalize(sqrt, Scale(v, -1.0)) == Scale(Normalize(sqrt, v), -1.0)
  {
    SumSquaresScaled(v, -1.0);
    assert SumSquares(Scale(v, -1.0)) == SumSquares(v);
    hide SumSquares;
    var n := sqrt(SumSquares(v));
    var a, b := Normalize(sqrt, Scale(v, -1.0)), Scale(Normalize(sqrt, v), -1.0);
    forall i | 0 <= i < |v| ensures a[i] == b[i] {
      if n != 0.0 { NegatedQuotient(v[i], n); }
    }
    assert a == b;
  }

  lemma NegatedQuotient(x: real, n: real)
    requires n != 0.0
    ensures (x * -1.0) / n == (x / n) * -1.0
  {
    DivideIsMultiply(x, n);
    DivideIsMultiply(x * -1.0, n);
  }

  /** A negative multiple of a non-zero vector points the other way, so it scores exactly minus one. */
  lemma NegativeMultipleScoresMinusOne(sqrt: real -> real, v: Vector, c: real)
    requires IsSquareRoot(sqrt) && Dot(v, v) != 0.0 && c < 0.0
    ensures Dot(Normalize(sqrt, Scale(v, c)), Normalize(sqrt, v)) == -1.0
    ensures Dot(Normalize(sqrt, v), Normalize(sqrt, Scale(v, c))) == -1.0
  {
    DotSelf(v);
    hide *;
    var w := Scale(v, -c);
    ScaleTwice(v, -c, -1.0);
    assert -c * -1.0 == c;
    ScaledVectorScoresOne(sqrt, v, -c);
    NormalizeNegated(sqrt, w);
    DotScaled(Normalize(sqrt, w), Normalize(sqrt, v), -1.0);
    DotSymmetric(Normalize(sqrt, Scale(v, c)), Normalize(sqrt, v));
  }
}
