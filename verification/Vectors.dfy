/** Sums, dot products and square roots over exact reals. */
module Vectors {
  type Vector = seq<real>

  function Sum(v: Vector): real {
    if v == [] then 0.0 else Sum(v[..|v| - 1]) + v[|v| - 1]
  }

  function Dot(a: Vector, b: Vector): real
    requires |a| == |b|
  {
    if a == [] then 0.0 else Dot(a[..|a| - 1], b[..|b| - 1]) + a[|a| - 1] * b[|b| - 1]
  }

  function SumSquares(v: Vector): real {
    Dot(v, v)
  }

  function Abs(x: real): real {
    if x < 0.0 then -x else x
  }

  /** `s` is the square root of `x`. */
  ghost predicate IsRoot(s: real, x: real) {
    s >= 0.0 && s * s == x
  }

  lemma SquareIsNonnegative(x: real)
    ensures x * x >= 0.0
  {}

  lemma SquareIsPositive(x: real, square: real)
    requires x != 0.0 && square == x * x
    ensures square > 0.0
  {
    if x > 0.0 {
      PositiveProduct(x, x, square);
    } else {
      PositiveProduct(-x, -x, square);
    }
  }

  lemma PositiveProduct(x: real, y: real, product: real)
    requires x > 0.0 && y > 0.0 && product == x * y
    ensures product > 0.0
  {}

  lemma SquaresGrow(x: real, y: real)
    requires 0.0 <= x <= y
    ensures x * x <= y * y
  {}

  lemma {:induction false} SumSquaresIsNonnegative(v: Vector)
    ensures SumSquares(v) >= 0.0
  {
    if v != [] {
      SumSquaresIsNonnegative(v[..|v| - 1]);
      SquareIsNonnegative(v[|v| - 1]);
    }
  }

  lemma QuadraticStep(A: real, B: real, D: real, x: real, y: real, p: real, q: real)
    ensures x * x * (A + p * p) - 2.0 * (x * y) * (D + p * q) + y * y * (B + q * q)
         == x * x * A - 2.0 * (x * y) * D + y * y * B + (x * p - y * q) * (x * p - y * q)
  {}

  /** The squared distance of x times a from y times b. */
  ghost function Gap(a: Vector, b: Vector, x: real, y: real): real
    requires |a| == |b|
  {
    if a == [] then 0.0 else
      var r := x * a[|a| - 1] - y * b[|b| - 1];
      Gap(a[..|a| - 1], b[..|b| - 1], x, y) + r * r
  }

  /** It is the quadratic form of the squares and the product of the two vectors. */
  lemma {:induction false} GapIsForm(a: Vector, b: Vector, x: real, y: real) returns (A: real, D: real, B: real)
    requires |a| == |b|
    ensures A == SumSquares(a) && D == Dot(a, b) && B == SumSquares(b)
    ensures Gap(a, b, x, y) == x * x * A - 2.0 * (x * y) * D + y * y * B
  {
    if a == [] {
      A, D, B := 0.0, 0.0, 0.0;
    } else {
      var p, q := a[|a| - 1], b[|b| - 1];
      A, D, B := GapIsForm(a[..|a| - 1], b[..|b| - 1], x, y);
      QuadraticStep(A, B, D, x, y, p, q);
      A, D, B := A + p * p, D + p * q, B + q * q;
    }
  }

  lemma {:induction false} GapIsNonnegative(a: Vector, b: Vector, x: real, y: real)
    requires |a| == |b|
    ensures Gap(a, b, x, y) >= 0.0
  {
    if a != [] {
      GapIsNonnegative(a[..|a| - 1], b[..|b| - 1], x, y);
      SquareIsNonnegative(x * a[|a| - 1] - y * b[|b| - 1]);
    }
  }

  lemma {:induction false} NoGap(a: Vector, b: Vector, x: real, y: real, i: nat)
    requires |a| == |b| && Gap(a, b, x, y) == 0.0 && i < |a|
    ensures x * a[i] - y * b[i] == 0.0
  {
    var a', b' := a[..|a| - 1], b[..|b| - 1];
    var rest, r, rr := LastGap(a, b, x, y);
    GapIsNonnegative(a', b', x, y);
    if r != 0.0 { SquareIsPositive(r, rr); }
    if i < |a| - 1 {
      NoGap(a', b', x, y, i);
    }
  }

  lemma LastGap(a: Vector, b: Vector, x: real, y: real) returns (rest: real, r: real, rr: real)
    requires |a| == |b| > 0
    ensures Gap(a, b, x, y) == rest + rr && rest == Gap(a[..|a| - 1], b[..|b| - 1], x, y)
    ensures r == x * a[|a| - 1] - y * b[|b| - 1] && rr == r * r && rr >= 0.0
  {
    rest, r := Gap(a[..|a| - 1], b[..|b| - 1], x, y), x * a[|a| - 1] - y * b[|b| - 1];
    rr := r * r;
    SquareIsNonnegative(r);
  }

  /** The quadratic form of two vectors is never negative. */
  lemma QuadraticForm(a: Vector, b: Vector, x: real, y: real)
    requires |a| == |b|
    ensures x * x * SumSquares(a) - 2.0 * (x * y) * Dot(a, b) + y * y * SumSquares(b) >= 0.0
  {
    var A, D, B := GapIsForm(a, b, x, y);
    GapIsNonnegative(a, b, x, y);
  }

  lemma CauchySchwarz(a: Vector, b: Vector)
    requires |a| == |b|
    ensures Dot(a, b) * Dot(a, b) <= SumSquares(a) * SumSquares(b)
  {
    var A, B, D := SumSquares(a), SumSquares(b), Dot(a, b);
    SumSquaresIsNonnegative(b);
    if B > 0.0 {
      QuadraticForm(a, b, B, D);
      Discriminant(A, B, D);
    } else {
      var y := if D == 0.0 then 0.0 else (A + 1.0) / (2.0 * D);
      assert D != 0.0 ==> 2.0 * (1.0 * y) * D == A + 1.0;
      assert y * y * B == 0.0;
      QuadraticForm(a, b, 1.0, y);
    }
  }

  lemma Discriminant(A: real, B: real, D: real)
    requires B > 0.0 && B * B * A - 2.0 * (B * D) * D + D * D * B >= 0.0
    ensures D * D <= A * B
  {
    assert B * (A * B - D * D) == B * B * A - 2.0 * (B * D) * D + D * D * B;
    if A * B - D * D < 0.0 {
      ProductOfSigns(B, A * B - D * D);
    }
  }

  lemma ProductOfSigns(x: real, y: real)
    requires x > 0.0 && y < 0.0
    ensures x * y < 0.0
  {}

  lemma SquareOrder(x: real, y: real)
    requires y >= 0.0 && x * x <= y * y
    ensures -y <= x <= y
  {
    if x > y {
      PositiveProduct(x - y, x + y, x * x - y * y);
    } else if x < -y {
      PositiveProduct(-y - x, y - x, x * x - y * y);
    }
  }

  lemma CancelFactor(t: real, x: real, y: real)
    requires t > 0.0 && x * t <= y * t
    ensures x <= y
  {
    if x > y {
      ProductOfSigns(t, y - x);
    }
  }

  function Ones(n: nat): Vector {
    seq(n, _ => 1.0)
  }

  lemma {:induction false} DotWithOnes(v: Vector)
    ensures Dot(v, Ones(|v|)) == Sum(v)
    ensures SumSquares(Ones(|v|)) == |v| as real
  {
    if v != [] {
      assert Ones(|v|)[..|v| - 1] == Ones(|v| - 1);
      DotWithOnes(v[..|v| - 1]);
    }
  }

  /** The square of a sum is at most the number of terms times the sum of the squares. */
  lemma SquareOfSum(v: Vector)
    ensures Sum(v) * Sum(v) <= |v| as real * SumSquares(v)
  {
    DotWithOnes(v);
    CauchySchwarz(v, Ones(|v|));
  }

  /** For vectors of any length, the dot product lies between minus and plus the product of the lengths. */
  lemma DotIsBounded(a: Vector, b: Vector, s: real, t: real)
    requires |a| == |b| && IsRoot(s, SumSquares(a)) && IsRoot(t, SumSquares(b))
    ensures -(s * t) <= Dot(a, b) <= s * t
  {
    CauchySchwarz(a, b);
    assert (s * t) * (s * t) == (s * s) * (t * t);
    SquareOrder(Dot(a, b), s * t);
  }

  // ----- linear combinations

  /** x times a minus y times b. */
  function Combine(a: Vector, b: Vector, x: real, y: real): (r: Vector)
    requires |a| == |b|
    ensures |r| == |a| && forall i :: 0 <= i < |a| ==> r[i] == x * a[i] - y * b[i]
  {
    seq(|a|, i requires 0 <= i < |a| => x * a[i] - y * b[i])
  }

  lemma CombineInit(a: Vector, b: Vector, x: real, y: real)
    requires |a| == |b| && a != []
    ensures Combine(a, b, x, y)[..|a| - 1] == Combine(a[..|a| - 1], b[..|b| - 1], x, y)
  {
    var left, right := Combine(a, b, x, y)[..|a| - 1], Combine(a[..|a| - 1], b[..|b| - 1], x, y);
    forall i | 0 <= i < |a| - 1 ensures left[i] == right[i] {
      assert a[..|a| - 1][i] == a[i] && b[..|b| - 1][i] == b[i];
    }
  }

  lemma LinearStep(p: real, q: real, r: real, x: real, y: real, D: real, E: real)
    ensures x * D - y * E + (x * p - y * q) * r == x * (D + p * r) - y * (E + q * r)
  {}

  /** The dot product is linear. */
  lemma {:induction false} DotIsLinear(a: Vector, b: Vector, c: Vector, x: real, y: real)
    requires |a| == |b| == |c|
    ensures Dot(Combine(a, b, x, y), c) == x * Dot(a, c) - y * Dot(b, c)
  {
    if a != [] {
      var a', b', c' := a[..|a| - 1], b[..|b| - 1], c[..|c| - 1];
      CombineInit(a, b, x, y);
      DotIsLinear(a', b', c', x, y);
      LinearStep(a[|a| - 1], b[|a| - 1], c[|a| - 1], x, y, Dot(a', c'), Dot(b', c'));
    }
  }

  lemma {:induction false} DotIsSymmetric(a: Vector, b: Vector)
    requires |a| == |b|
    ensures Dot(a, b) == Dot(b, a)
  {
    if a != [] {
      DotIsSymmetric(a[..|a| - 1], b[..|b| - 1]);
    }
  }

  /** The unit vector of direction i picks out an entry. */
  lemma {:induction false} DotWithUnit(b: Vector, i: nat)
    requires i < |b|
    ensures Dot(seq(|b|, k => if k == i then 1.0 else 0.0), b) == b[i]
  {
    var n := |b| - 1;
    var unit := seq(|b|, k => if k == i then 1.0 else 0.0);
    if i < n {
      assert unit[..n] == seq(n, k => if k == i then 1.0 else 0.0);
      DotWithUnit(b[..n], i);
    } else {
      assert forall k :: 0 <= k < n ==> unit[..n][k] == 0.0;
      DotWithZeros(unit[..n], b[..n]);
    }
  }

  lemma {:induction false} DotWithZeros(a: Vector, b: Vector)
    requires |a| == |b| && forall k :: 0 <= k < |a| ==> a[k] == 0.0
    ensures Dot(a, b) == 0.0
  {
    if a != [] {
      DotWithZeros(a[..|a| - 1], b[..|b| - 1]);
    }
  }
}
