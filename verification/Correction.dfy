/**
 Correction patterns: similarity to an intent with decay and undo penalty,
 and the in-memory store that learns one pattern per corrected tool.
 */
module Correction {
  import opened Vectors
  import opened Wrappers
  import opened Dictionaries

  type Tool = string

  datatype CorrectionPattern = CorrectionPattern(
    intentVector: Vector,
    originalTools: seq<Tool>,
    correctedTools: seq<Tool>,
    occurrenceCount: nat,
    avgConfidenceImprovement: real,
    lastUpdated: real,
    totalUndoCount: nat)
  {
    function WithIncrement(improvement: real, now: real): CorrectionPattern {
      var newCount := occurrenceCount + 1;
      this.(occurrenceCount := newCount,
            avgConfidenceImprovement :=
              (avgConfidenceImprovement * occurrenceCount as real + improvement) / newCount as real,
            lastUpdated := now)
    }

    function WithUndo(now: real): CorrectionPattern {
      this.(totalUndoCount := totalUndoCount + 1, lastUpdated := now)
    }

    function UndoPenalty(): real {
      if occurrenceCount == 0 then 1.0 else
        var left := 1.0 - totalUndoCount as real / occurrenceCount as real;
        if left > 0.0 then left else 0.0
    }

    /** Cosine similarity times decay times undo penalty; `norm` takes the square roots. */
    function MatchesIntent(v: Vector, norm: Vector -> real, decay: real): real {
      Cosine(v, intentVector, norm) * decay * UndoPenalty()
    }

    /** The score at a time: `fade` is the decay at an age. */
    function ScoreAt(v: Vector, norm: Vector -> real, fade: real -> real, now: real): real {
      MatchesIntent(v, norm, fade(now - lastUpdated))
    }

    function EffectiveConfidence(v: Vector, norm: Vector -> real, decay: real): real {
      var boost := Min(1.0, occurrenceCount as real / 10.0);
      var effective := MatchesIntent(v, norm, decay) * (0.7 + 0.2 * boost + 0.1 * Max(0.0, avgConfidenceImprovement));
      Min(1.0, Max(0.0, effective))
    }
  }

  function Min(x: real, y: real): real { if y < x then y else x }
  function Max(x: real, y: real): real { if y > x then y else x }

  /** Zero for vectors of different lengths and for a vector of length zero. */
  function Cosine(a: Vector, b: Vector, norm: Vector -> real): real {
    if |a| != |b| || norm(a) == 0.0 || norm(b) == 0.0 then 0.0 else Dot(a, b) / (norm(a) * norm(b))
  }

  ghost predicate IsNorm(norm: Vector -> real, v: Vector) {
    IsRoot(norm(v), SumSquares(v))
  }

  lemma DivideBounded(x: real, t: real)
    requires t > 0.0 && -t <= x <= t
    ensures -1.0 <= x / t <= 1.0
  {
    var q := x / t;
    assert q * t == x;
    if q > 1.0 { PositiveProduct(q - 1.0, t, x - t); }
    if q < -1.0 { PositiveProduct(-1.0 - q, t, -t - x); }
  }

  lemma CosineIsBounded(a: Vector, b: Vector, norm: Vector -> real)
    requires IsNorm(norm, a) && IsNorm(norm, b)
    ensures -1.0 <= Cosine(a, b, norm) <= 1.0
  {
    if |a| == |b| && norm(a) != 0.0 && norm(b) != 0.0 {
      DotIsBounded(a, b, norm(a), norm(b));
      PositiveProduct(norm(a), norm(b), norm(a) * norm(b));
      DivideBounded(Dot(a, b), norm(a) * norm(b));
    }
  }

  lemma CosineOfSelf(v: Vector, norm: Vector -> real)
    requires IsNorm(norm, v) && SumSquares(v) != 0.0
    ensures Cosine(v, v, norm) == 1.0
  {
    QuotientOfEqual(Dot(v, v), norm(v) * norm(v));
  }

  lemma QuotientParts(x: real, t: real)
    requires t > 0.0
    ensures (x / t) * t == x
    ensures (x / t > 0.0 <==> x > 0.0) && (x / t < 0.0 <==> x < 0.0)
  {}

  lemma SquareOfQuotient(c: real, s: real, t: real, x: real)
    requires c * (s * t) == x
    ensures c * c * ((s * s) * (t * t)) == x * x
  {}

  /** Without the quotient: it has the sign of the dot product, and its square is the squared one over both lengths. */
  lemma CosineIsExact(a: Vector, b: Vector, norm: Vector -> real)
    requires IsNorm(norm, a) && IsNorm(norm, b) && |a| == |b| && SumSquares(a) != 0.0 && SumSquares(b) != 0.0
    ensures var c := Cosine(a, b, norm);
            && (c > 0.0 <==> Dot(a, b) > 0.0) && (c < 0.0 <==> Dot(a, b) < 0.0)
            && c * c * (SumSquares(a) * SumSquares(b)) == Dot(a, b) * Dot(a, b)
  {
    var s, t := norm(a), norm(b);
    PositiveProduct(s, t, s * t);
    QuotientParts(Dot(a, b), s * t);
    SquareOfQuotient(Cosine(a, b, norm), s, t, Dot(a, b));
  }

  /** One vector is a positive multiple of the other. */
  ghost predicate SameDirection(a: Vector, b: Vector, k: real) {
    |a| == |b| && k > 0.0 && forall i :: 0 <= i < |a| ==> a[i] == k * b[i]
  }

  lemma PerfectMatch(a: Vector, b: Vector, s: real, t: real) returns (k: real)
    requires |a| == |b| && s > 0.0 && t > 0.0 && s * s == SumSquares(a) && t * t == SumSquares(b)
    requires Dot(a, b) == s * t
    ensures SameDirection(a, b, k)
  {
    k := PositiveQuotient(s, t);
    var A, D, B := GapIsForm(a, b, t, s);
    NoRest(s, t, A, D, B);
    forall i | 0 <= i < |a| ensures a[i] == k * b[i] {
      NoGap(a, b, t, s, i);
      SameMultiple(a[i], b[i], s, t, k);
    }
  }

  lemma PositiveQuotient(s: real, t: real) returns (k: real)
    requires s > 0.0 && t > 0.0
    ensures k > 0.0 && k * t == s
  {
    k := s / t;
  }

  lemma NoRest(s: real, t: real, A: real, D: real, B: real)
    requires A == s * s && D == s * t && B == t * t
    ensures t * t * A - 2.0 * (t * s) * D + s * s * B == 0.0
  {}

  lemma SameMultiple(x: real, y: real, s: real, t: real, k: real)
    requires t > 0.0 && t * x - s * y == 0.0 && k * t == s
    ensures x == k * y
  {
    assert (x - k * y) * t == 0.0;
    if x > k * y { PositiveProduct(x - k * y, t, (x - k * y) * t); }
    if x < k * y { PositiveProduct(k * y - x, t, (k * y - x) * t); }
  }

  lemma MultipleDots(a: Vector, b: Vector, k: real) returns (D: real, A: real, B: real)
    requires SameDirection(a, b, k)
    ensures D == Dot(a, b) == k * B && A == SumSquares(a) == k * D && B == SumSquares(b)
  {
    D, A, B := Dot(a, b), Dot(a, a), Dot(b, b);
    var c := Combine(b, b, k, 0.0);
    forall i | 0 <= i < |a| ensures a[i] == c[i] {
      assert 0.0 * b[i] == 0.0;
    }
    assert a == c;
    DotIsLinear(b, b, b, k, 0.0);
    DotIsLinear(b, b, a, k, 0.0);
    DotIsSymmetric(a, b);
  }

  lemma MultipleMatches(a: Vector, b: Vector, s: real, t: real, k: real)
    requires SameDirection(a, b, k) && s > 0.0 && t > 0.0 && s * s == SumSquares(a) && t * t == SumSquares(b)
    ensures Dot(a, b) == s * t
  {
    var D, A, B := MultipleDots(a, b, k);
    SameSquare(s, t, k, D, A, B);
  }

  lemma SameSquare(s: real, t: real, k: real, D: real, A: real, B: real)
    requires s > 0.0 && t > 0.0 && k > 0.0 && A == s * s && B == t * t && D == k * B && A == k * D
    ensures D == s * t
  {
    var u := k * t;
    PositiveProduct(k, t, u);
    assert u * u == k * (k * (t * t));
    SquareOrder(s, u);
    SquareOrder(u, s);
    assert D == u * t;
  }

  /** The similarity is 1 exactly when the vectors point the same way. */
  lemma CosineIsOneIff(a: Vector, b: Vector, norm: Vector -> real)
    requires IsNorm(norm, a) && IsNorm(norm, b) && |a| == |b| && SumSquares(a) != 0.0 && SumSquares(b) != 0.0
    ensures Cosine(a, b, norm) == 1.0 <==> exists k :: SameDirection(a, b, k)
  {
    var s, t := norm(a), norm(b);
    PositiveProduct(s, t, s * t);
    QuotientParts(Dot(a, b), s * t);
    if Cosine(a, b, norm) == 1.0 {
      var k := PerfectMatch(a, b, s, t);
    }
    if k :| SameDirection(a, b, k) {
      MultipleMatches(a, b, s, t, k);
      QuotientOfEqual(Dot(a, b), s * t);
    }
  }

  /** An intent at right angles to a pattern's does not match it. */
  lemma OrthogonalIsNoMatch(p: CorrectionPattern, v: Vector, norm: Vector -> real, decay: real)
    requires p.intentVector == [0.0, 1.0] && v == [1.0, 0.0] && IsNorm(norm, v) && IsNorm(norm, p.intentVector)
    ensures Cosine(v, p.intentVector, norm) == 0.0 && p.MatchesIntent(v, norm, decay) == 0.0
  {
    var w := p.intentVector;
    var v', w' := v[..|v| - 1], w[..|w| - 1];
    assert v' == [1.0] && w' == [0.0] && v'[..|v'| - 1] == [] && w'[..|w'| - 1] == [];
    assert Dot(v', w') == 0.0;
    assert Dot(v, w) == 0.0;
    if norm(v) != 0.0 && norm(w) != 0.0 {
      PositiveProduct(norm(v), norm(w), norm(v) * norm(w));
      QuotientParts(Dot(v, w), norm(v) * norm(w));
    }
  }

  lemma QuotientOfEqual(x: real, t: real)
    requires x == t && t != 0.0
    ensures x / t == 1.0
  {}

  lemma ShrinkToUnit(x: real, f: real)
    requires -1.0 <= x <= 1.0 && 0.0 <= f <= 1.0
    ensures -1.0 <= x * f <= 1.0
    ensures x >= 0.0 ==> 0.0 <= x * f <= x
    ensures x <= 0.0 ==> x <= x * f <= 0.0
  {}

  lemma PenaltyIsFactor(p: CorrectionPattern)
    ensures 0.0 <= p.UndoPenalty() <= 1.0
  {
    if p.occurrenceCount > 0 {
      var rate := p.totalUndoCount as real / p.occurrenceCount as real;
      assert rate * p.occurrenceCount as real == p.totalUndoCount as real;
      assert rate >= 0.0;
    }
  }

  /** Scores lie in [-1, 1] for vectors of any length. */
  lemma MatchIsBounded(p: CorrectionPattern, v: Vector, norm: Vector -> real, decay: real)
    requires IsNorm(norm, v) && IsNorm(norm, p.intentVector) && 0.0 <= decay <= 1.0
    ensures -1.0 <= p.MatchesIntent(v, norm, decay) <= 1.0
  {
    CosineIsBounded(v, p.intentVector, norm);
    PenaltyIsFactor(p);
    ShrinkToUnit(Cosine(v, p.intentVector, norm), decay);
    ShrinkToUnit(Cosine(v, p.intentVector, norm) * decay, p.UndoPenalty());
  }

  /** An identical nonzero vector scores exactly decay times penalty, the highest score the pattern can give. */
  lemma MatchOfSelfIsBest(p: CorrectionPattern, v: Vector, norm: Vector -> real, decay: real)
    requires IsNorm(norm, v) && IsNorm(norm, p.intentVector) && 0.0 <= decay <= 1.0
    requires SumSquares(p.intentVector) != 0.0
    ensures p.MatchesIntent(p.intentVector, norm, decay) == decay * p.UndoPenalty()
    ensures p.MatchesIntent(v, norm, decay) <= p.MatchesIntent(p.intentVector, norm, decay)
  {
    CosineOfSelf(p.intentVector, norm);
    CosineIsBounded(v, p.intentVector, norm);
    PenaltyIsFactor(p);
    ScaleBoth(Cosine(v, p.intentVector, norm), decay, p.UndoPenalty());
  }

  lemma ScaleBoth(c: real, f: real, g: real)
    requires c <= 1.0 && f >= 0.0 && g >= 0.0
    ensures c * f * g <= f * g
  {
    assert c * f <= f by { assert (1.0 - c) * f >= 0.0; }
    assert (f - c * f) * g >= 0.0;
  }

  /** With average improvement at most 1, the confidence lies between 0 and max(0, match). */
  lemma ConfidenceIsBounded(p: CorrectionPattern, v: Vector, norm: Vector -> real, decay: real)
    requires IsNorm(norm, v) && IsNorm(norm, p.intentVector) && 0.0 <= decay <= 1.0
    requires p.avgConfidenceImprovement <= 1.0
    ensures 0.0 <= p.EffectiveConfidence(v, norm, decay) <= Max(0.0, p.MatchesIntent(v, norm, decay)) <= 1.0
    ensures p.EffectiveConfidence(v, norm, decay) >= 0.7 * p.MatchesIntent(v, norm, decay)
    ensures p.MatchesIntent(v, norm, decay) > 0.0 ==>
              (p.EffectiveConfidence(v, norm, decay) == p.MatchesIntent(v, norm, decay)
               <==> p.occurrenceCount >= 10 && p.avgConfidenceImprovement == 1.0)
  {
    MatchIsBounded(p, v, norm, decay);
    var boost := Min(1.0, p.occurrenceCount as real / 10.0);
    var m, weight := p.MatchesIntent(v, norm, decay), 0.7 + 0.2 * boost + 0.1 * Max(0.0, p.avgConfidenceImprovement);
    ClampedProduct(m, weight, m * weight);
  }

  /**
   In percent of the match: seventy, two for each occurrence up to ten, and ten for each unit of
   average improvement; the result is cut off at nothing and at full confidence.
   */
  lemma ConfidenceIsWeighted(p: CorrectionPattern, v: Vector, norm: Vector -> real, decay: real)
    requires IsNorm(norm, v) && IsNorm(norm, p.intentVector) && 0.0 <= decay <= 1.0
    ensures var m, c := p.MatchesIntent(v, norm, decay), p.EffectiveConfidence(v, norm, decay);
            var times := if p.occurrenceCount < 10 then p.occurrenceCount else 10;
            var gain := if p.avgConfidenceImprovement > 0.0 then p.avgConfidenceImprovement else 0.0;
            var percent := m * (70.0 + 2.0 * times as real + 10.0 * gain);
            c * 100.0 == if percent < 0.0 then 0.0 else if percent > 100.0 then 100.0 else percent
  {
    var m, boost := p.MatchesIntent(v, norm, decay), Min(1.0, p.occurrenceCount as real / 10.0);
    var weight := 0.7 + 0.2 * boost + 0.1 * Max(0.0, p.avgConfidenceImprovement);
    Percent(m, weight, weight * 100.0);
  }

  lemma Percent(m: real, weight: real, percent: real)
    requires percent == weight * 100.0
    ensures m * weight * 100.0 == m * percent
  {}

  lemma ClampedProduct(m: real, weight: real, product: real)
    requires -1.0 <= m <= 1.0 && 0.0 <= weight <= 1.0 && product == m * weight
    ensures 0.0 <= Min(1.0, Max(0.0, product)) <= Max(0.0, m) <= 1.0
    ensures weight >= 0.7 ==> Min(1.0, Max(0.0, product)) >= 0.7 * m
    ensures m > 0.0 ==> (Min(1.0, Max(0.0, product)) == m <==> weight == 1.0)
  {
    ShrinkToUnit(m, weight);
    if m > 0.0 {
      ScaleByPart(m, weight, product, 0.7);
      ScaleByPart(m, weight, product, 1.0);
    }
  }

  lemma ScaleByPart(m: real, weight: real, product: real, part: real)
    requires m > 0.0 && product == m * weight
    ensures weight > part ==> product > part * m
    ensures weight == part ==> product == part * m
    ensures weight < part ==> product < part * m
  {
    var rest := m * (weight - part);
    assert rest == product - part * m;
    if weight > part { PositiveProduct(m, weight - part, rest); }
    if weight < part { PositiveProduct(m, part - weight, -rest); }
  }

  lemma SignOfProduct(x: real, y: real)
    requires x <= 0.0 && y >= 0.0
    ensures x * y <= 0.0
  {}

  lemma NonnegativeProduct(x: real, y: real, product: real)
    requires x >= 0.0 && y >= 0.0 && product == x * y
    ensures product >= 0.0
  {}

  lemma ProductIsSmaller(f: real, g: real, product: real)
    requires 0.0 <= f <= 1.0 && 0.0 <= g && product == f * g
    ensures 0.0 <= product <= g
  {
    NonnegativeProduct(f, g, product);
    NonnegativeProduct(1.0 - f, g, g - product);
  }

  lemma FactorsAreLarge(x: real, f: real, g: real, least: real)
    requires x <= 1.0 && 0.0 <= f <= 1.0 && 0.0 <= g <= 1.0 && x * f * g >= least
    ensures f >= least && g >= least
  {
    var product := f * g;
    ProductIsSmaller(f, g, product);
    ProductIsSmaller(g, f, product);
    NonnegativeProduct(1.0 - x, product, product - x * f * g);
  }

  lemma FactorIsPositive(x: real, f: real, g: real)
    requires f >= 0.0 && g >= 0.0 && x * f * g > 0.0
    ensures x > 0.0
  {
    if x <= 0.0 {
      SignOfProduct(x, f);
      SignOfProduct(x * f, g);
    }
  }

  lemma PenaltyBoundsUndos(p: CorrectionPattern)
    requires p.UndoPenalty() >= 0.7 && p.occurrenceCount > 0
    ensures 10 * p.totalUndoCount <= 3 * p.occurrenceCount
  {
    var n, u := p.occurrenceCount as real, p.totalUndoCount as real;
    var rate := u / n;
    assert rate * n == u;
    if rate < 0.3 { PositiveProduct(0.3 - rate, n, 0.3 * n - u); }
    assert 10.0 * u <= 3.0 * n;
  }

  /** A match of 0.7 needs a decay of 0.7, undos of at most three in ten occurrences, and a nonzero vector. */
  lemma HighMatchNeedsTrust(p: CorrectionPattern, v: Vector, norm: Vector -> real, decay: real)
    requires IsNorm(norm, v) && IsNorm(norm, p.intentVector) && 0.0 <= decay <= 1.0
    requires p.MatchesIntent(v, norm, decay) >= 0.7
    ensures decay >= 0.7 && SumSquares(p.intentVector) != 0.0
    ensures p.occurrenceCount > 0 ==> 10 * p.totalUndoCount <= 3 * p.occurrenceCount
  {
    CosineIsBounded(v, p.intentVector, norm);
    PenaltyIsFactor(p);
    FactorsAreLarge(Cosine(v, p.intentVector, norm), decay, p.UndoPenalty(), 0.7);
    FactorIsPositive(Cosine(v, p.intentVector, norm), decay, p.UndoPenalty());
    if p.occurrenceCount > 0 {
      PenaltyBoundsUndos(p);
    }
    if norm(p.intentVector) != 0.0 {
      SquareIsPositive(norm(p.intentVector), SumSquares(p.intentVector));
    }
  }

  function Undo(p: CorrectionPattern, times: nat, now: real): CorrectionPattern {
    if times == 0 then p else Undo(p, times - 1, now).WithUndo(now)
  }

  lemma {:induction false} UndoCounts(p: CorrectionPattern, times: nat, now: real)
    ensures Undo(p, times, now) == p.(totalUndoCount := p.totalUndoCount + times,
                                      lastUpdated := if times == 0 then p.lastUpdated else now)
  {
    if times > 0 {
      UndoCounts(p, times - 1, now);
    }
  }

  /** Each undo takes 1/count off the factor; as many undos as occurrences silence the pattern. */
  lemma UndosSilencePattern(
    p: CorrectionPattern, times: nat, now: real, v: Vector, norm: Vector -> real, decay: real)
    requires p.occurrenceCount > 0
    ensures p.totalUndoCount + times >= p.occurrenceCount <==> Undo(p, times, now).UndoPenalty() == 0.0
    ensures p.totalUndoCount + times >= p.occurrenceCount ==>
              Undo(p, times, now).MatchesIntent(v, norm, decay) == 0.0
  {
    UndoCounts(p, times, now);
    var n, u := p.occurrenceCount as real, (p.totalUndoCount + times) as real;
    var rate := u / n;
    assert rate * n == u;
    if rate < 1.0 { PositiveProduct(1.0 - rate, n, n - u); }
    if rate > 1.0 { PositiveProduct(rate - 1.0, n, u - n); }
  }

  /** The decay is 1 at age zero, and a factor at any age. */
  ghost predicate Fades(fade: real -> real) {
    fade(0.0) == 1.0 && forall age :: 0.0 <= fade(age) <= 1.0
  }

  /** What the penalty is n-th parts of. */
  lemma PenaltyParts(p: CorrectionPattern, n: real, u: real)
    requires p.occurrenceCount > 0 && n == p.occurrenceCount as real && u == p.totalUndoCount as real
    ensures p.UndoPenalty() * n == if u < n then n - u else 0.0
  {
    var rate := u / n;
    assert rate * n == u;
    if rate < 1.0 { PositiveProduct(1.0 - rate, n, n - u); }
    if rate > 1.0 { PositiveProduct(rate - 1.0, n, u - n); }
  }

  /** A positive factor keeps the order. */
  lemma ScaledOrder(x: real, y: real, f: real, fx: real, fy: real)
    requires f > 0.0 && fx == x * f && fy == y * f
    ensures (x < y <==> fx < fy) && (x > y <==> fx > fy)
  {
    if x < y { PositiveProduct(y - x, f, fy - fx); }
    if y < x { PositiveProduct(x - y, f, fx - fy); }
  }

  lemma Regroup(x: real, y: real, z: real)
    ensures x * y * z == x * (y * z)
  {}

  /** How a new penalty compares with a decayed old one, in n-th parts. */
  lemma PenaltyOrder(before: real, after: real, decay: real, n: real, u: real)
    requires n > 0.0
    requires before * n == if u < n then n - u else 0.0
    requires after * n == if u + 1.0 < n then n - u - 1.0 else 0.0
    ensures after < decay * before <==>
            (if u + 1.0 < n then n - u - 1.0 else 0.0) < decay * if u < n then n - u else 0.0
    ensures after > decay * before <==>
            (if u + 1.0 < n then n - u - 1.0 else 0.0) > decay * if u < n then n - u else 0.0
  {
    var scaled := decay * before;
    Regroup(decay, before, n);
    ScaledOrder(after, scaled, n, after * n, scaled * n);
  }

  /** An undo takes one n-th off the penalty factor, and makes the pattern new again. */
  lemma UndoPenaltyOrder(p: CorrectionPattern, now: real, decay: real, n: nat, u: nat)
    requires n == p.occurrenceCount && u == p.totalUndoCount && 0.0 <= decay <= 1.0
    ensures var before, after := p.UndoPenalty(), p.WithUndo(now).UndoPenalty();
            && (after < decay * before <==> u < n && (n - u - 1) as real < decay * (n - u) as real)
            && (after > decay * before <==>
                  (n == 0 && decay < 1.0) || (u < n && (n - u - 1) as real > decay * (n - u) as real))
  {
    if n > 0 {
      PenaltyParts(p, n as real, u as real);
      PenaltyParts(p.WithUndo(now), n as real, (u + 1) as real);
      PenaltyOrder(p.UndoPenalty(), p.WithUndo(now).UndoPenalty(), decay, n as real, u as real);
    }
  }

  /**
   An undo is meant to lower the score. With n occurrences, u undos before it and a positive
   similarity it does if and only if u < n and n - u - 1 is below decay times n - u. Otherwise the
   decay that the undo takes back, by making the pattern new, is worth more than the penalty.
   */
  lemma UndoLowersScoreIff(p: CorrectionPattern, v: Vector, norm: Vector -> real, fade: real -> real, now: real)
    requires Fades(fade) && Cosine(v, p.intentVector, norm) > 0.0
    ensures var n, u, decay := p.occurrenceCount, p.totalUndoCount, fade(now - p.lastUpdated);
            var before, after := p.ScoreAt(v, norm, fade, now), p.WithUndo(now).ScoreAt(v, norm, fade, now);
            && (after < before <==> u < n && (n - u - 1) as real < decay * (n - u) as real)
            && (after > before <==>
                  (n == 0 && decay < 1.0) || (u < n && (n - u - 1) as real > decay * (n - u) as real))
  {
    var q, c, decay := p.WithUndo(now), Cosine(v, p.intentVector, norm), fade(now - p.lastUpdated);
    UndoPenaltyOrder(p, now, decay, p.occurrenceCount, p.totalUndoCount);
    assert q.ScoreAt(v, norm, fade, now) == q.UndoPenalty() * c;
    ScoreIsScaled(c, decay, p.UndoPenalty());
    ScaledOrder(q.UndoPenalty(), decay * p.UndoPenalty(), c, q.UndoPenalty() * c, c * decay * p.UndoPenalty());
  }

  lemma ScoreIsScaled(c: real, decay: real, penalty: real)
    ensures c * decay * penalty == decay * penalty * c
  {}

  /** The first undo of a pattern with ten occurrences raises its score when half of it has faded. */
  lemma UndoRaisesOldScore(p: CorrectionPattern, v: Vector, norm: Vector -> real, fade: real -> real, now: real)
    requires Fades(fade) && Cosine(v, p.intentVector, norm) > 0.0
    requires p.occurrenceCount == 10 && p.totalUndoCount == 0 && fade(now - p.lastUpdated) == 0.5
    ensures p.WithUndo(now).ScoreAt(v, norm, fade, now) > p.ScoreAt(v, norm, fade, now)
  {
    UndoLowersScoreIff(p, v, norm, fade, now);
  }

  // ----- the in-memory store

  /** A captured correction; both confidences are checked when it is made. */
  datatype CorrectionData = CorrectionData(
    id: string, originalTool: Tool, correctedTool: Tool, confidenceBefore: real, confidenceAfter: real)

  type Correction = c: CorrectionData |
    0.0 <= c.confidenceBefore <= 1.0 && 0.0 <= c.confidenceAfter <= 1.0
    witness CorrectionData("", "", "", 0.0, 0.0)

  datatype Save = Save(correction: Correction, embedding: Option<Vector>, now: real)

  const EMBEDDING_DIM := 128

  function Zeros(n: nat): Vector {
    seq(n, _ => 0.0)
  }

  function Improvement(c: Correction): real {
    c.confidenceAfter - c.confidenceBefore
  }

  class InMemoryCorrectionStore {
    var corrections: map<string, Correction>
    var keys: seq<Tool>                       // dictionary order of `patterns`
    var patterns: map<Tool, CorrectionPattern>
    ghost var log: seq<Save>

    ghost predicate Valid()
      reads this
    {
      keys == KeysOf(log) && patterns == PatternsOf(log)
    }

    constructor ()
      ensures Valid() && log == [] && corrections == map[]
    {
      corrections, keys, patterns, log := map[], [], map[], [];
    }

    method SaveCorrection(correction: Correction, embedding: Option<Vector>, now: real)
      requires Valid()
      modifies this
      ensures Valid() && log == old(log) + [Save(correction, embedding, now)]
      ensures corrections == old(corrections)[correction.id := correction]
    {
      ghost var save := Save(correction, embedding, now);
      OneMoreSave(log, save);
      corrections := corrections[correction.id := correction];
      var vector := if embedding.Some? then embedding.value else Zeros(EMBEDDING_DIM);
      var key := correction.correctedTool;
      KeysArePatterns(log);
      if key in patterns {
        var updated := patterns[key].WithIncrement(Improvement(correction), now);
        if embedding.Some? {
          updated := updated.(intentVector := embedding.value);
        }
        assert updated == Grown(patterns[key], save);
        patterns := patterns[key := updated];
      } else {
        keys := keys + [key];
        var created :=
          CorrectionPattern(vector, [correction.originalTool], [key], 1, Improvement(correction), now, 0);
        patterns := patterns[key := created];
      }
      assert patterns == NextTable(old(patterns), save);
      log := log + [save];
    }

    /** The stored patterns in dictionary order; the intent vector is not looked at. */
    method FindPatterns(intentVector: Vector) returns (r: seq<CorrectionPattern>)
      requires Valid()
      ensures |r| == |keys|
      ensures forall i :: 0 <= i < |r| ==> keys[i] in patterns && r[i] == patterns[keys[i]]
    {
      KeysArePatterns(log);
      r := [];
      for i := 0 to |keys|
        invariant |r| == i
        invariant forall j :: 0 <= j < i ==> keys[j] in patterns && r[j] == patterns[keys[j]]
      {
        r := r + [patterns[keys[i]]];
      }
    }
  }

  ghost function CorrectedTools(log: seq<Save>): seq<Tool> {
    if log == [] then [] else CorrectedTools(log[..|log| - 1]) + [log[|log| - 1].correction.correctedTool]
  }

  /** The corrected tools of a log in the order of their first save. */
  ghost function KeysOf(log: seq<Save>): seq<Tool> {
    KeyOrder(CorrectedTools(log))
  }

  /** How one save changes the table. */
  ghost function NextTable(table: map<Tool, CorrectionPattern>, save: Save): map<Tool, CorrectionPattern> {
    var tool := save.correction.correctedTool;
    table[tool :=
      if tool in table then Grown(table[tool], save)
      else CorrectionPattern(if save.embedding.Some? then save.embedding.value else Zeros(EMBEDDING_DIM),
                             [save.correction.originalTool], [tool], 1, Improvement(save.correction), save.now, 0)]
  }

  /** The table that a log of saves leaves behind. */
  ghost function PatternsOf(log: seq<Save>): map<Tool, CorrectionPattern> {
    if log == [] then map[] else NextTable(PatternsOf(log[..|log| - 1]), log[|log| - 1])
  }

  lemma OneMoreSave(log: seq<Save>, save: Save)
    ensures PatternsOf(log + [save]) == NextTable(PatternsOf(log), save)
    ensures var tool := save.correction.correctedTool;
            KeysOf(log + [save]) == if tool in KeysOf(log) then KeysOf(log) else KeysOf(log) + [tool]
  {
    assert (log + [save])[..|log|] == log;
  }

  ghost function Grown(p: CorrectionPattern, save: Save): CorrectionPattern {
    var q := p.WithIncrement(Improvement(save.correction), save.now);
    if save.embedding.Some? then q.(intentVector := save.embedding.value) else q
  }

  lemma {:induction false} KeysArePatterns(log: seq<Save>)
    ensures forall t :: t in KeysOf(log) <==> t in PatternsOf(log)
    ensures forall i, j :: 0 <= i < j < |KeysOf(log)| ==> KeysOf(log)[i] != KeysOf(log)[j]
  {
    if log != [] {
      KeysArePatterns(log[..|log| - 1]);
    }
  }

  // What the log says about one tool, without the table.

  ghost function SavesOf(log: seq<Save>, tool: Tool): nat {
    if log == [] then 0 else
      SavesOf(log[..|log| - 1], tool) + if log[|log| - 1].correction.correctedTool == tool then 1 else 0
  }

  ghost function TotalImprovement(log: seq<Save>, tool: Tool): real {
    if log == [] then 0.0 else
      var c := log[|log| - 1].correction;
      TotalImprovement(log[..|log| - 1], tool) +
      if c.correctedTool == tool then c.confidenceAfter - c.confidenceBefore else 0.0
  }

  ghost function LatestEmbedding(log: seq<Save>, tool: Tool): Vector {
    if log == [] then Zeros(EMBEDDING_DIM) else
      var last := log[|log| - 1];
      if last.correction.correctedTool == tool && last.embedding.Some? then last.embedding.value
      else LatestEmbedding(log[..|log| - 1], tool)
  }

  ghost function LatestSave(log: seq<Save>, tool: Tool): Option<real> {
    if log == [] then None else
      var last := log[|log| - 1];
      if last.correction.correctedTool == tool then Some(last.now) else LatestSave(log[..|log| - 1], tool)
  }

  /** The original tool of the first save only: later ones are never added. */
  ghost function FirstOriginal(log: seq<Save>, tool: Tool): seq<Tool> {
    if log == [] then [] else
      var before, c := FirstOriginal(log[..|log| - 1], tool), log[|log| - 1].correction;
      if before == [] && c.correctedTool == tool then [c.originalTool] else before
  }

  /** What each entry of the table says about the log. */
  ghost predicate Agrees(log: seq<Save>, tool: Tool, p: CorrectionPattern) {
    && p.occurrenceCount == SavesOf(log, tool) > 0 && FirstOriginal(log, tool) != []
    && p.occurrenceCount as real * p.avgConfidenceImprovement == TotalImprovement(log, tool)
    && p.intentVector == LatestEmbedding(log, tool)
    && p.correctedTools == [tool] && p.originalTools == FirstOriginal(log, tool)
    && p.totalUndoCount == 0 && Some(p.lastUpdated) == LatestSave(log, tool)
  }

  lemma IncrementIsExact(p: CorrectionPattern, save: Save, total: real)
    requires p.occurrenceCount as real * p.avgConfidenceImprovement == total
    ensures var q := Grown(p, save);
            var c := save.correction;
            q.occurrenceCount as real * q.avgConfidenceImprovement == total + (c.confidenceAfter - c.confidenceBefore)
  {
    TimesQuotient(p.avgConfidenceImprovement * p.occurrenceCount as real + Improvement(save.correction),
                  (p.occurrenceCount + 1) as real);
  }

  lemma TimesQuotient(x: real, n: real)
    requires n != 0.0
    ensures n * (x / n) == x
  {}

  lemma GrownEntry(log: seq<Save>, tool: Tool, p: CorrectionPattern)
    requires log != [] && log[|log| - 1].correction.correctedTool == tool
    requires Agrees(log[..|log| - 1], tool, p)
    ensures Agrees(log, tool, Grown(p, log[|log| - 1]))
  {
    IncrementIsExact(p, log[|log| - 1], TotalImprovement(log[..|log| - 1], tool));
  }

  lemma NewEntry(log: seq<Save>, tool: Tool)
    requires log != [] && log[|log| - 1].correction.correctedTool == tool
    requires tool !in PatternsOf(log[..|log| - 1]) && SavesOf(log[..|log| - 1], tool) == 0
    requires TotalImprovement(log[..|log| - 1], tool) == 0.0
    requires LatestEmbedding(log[..|log| - 1], tool) == Zeros(EMBEDDING_DIM)
    requires FirstOriginal(log[..|log| - 1], tool) == []
    ensures tool in PatternsOf(log) && Agrees(log, tool, PatternsOf(log)[tool])
  {}

  /** After any sequence of saves the pattern table agrees with the log, and knows exactly the tools in it. */
  lemma {:induction false} TableAgreesWithLog(log: seq<Save>, tool: Tool)
    ensures tool in PatternsOf(log) <==> SavesOf(log, tool) > 0
    ensures tool in PatternsOf(log) ==> Agrees(log, tool, PatternsOf(log)[tool])
    ensures SavesOf(log, tool) == 0 ==>
              && TotalImprovement(log, tool) == 0.0 && FirstOriginal(log, tool) == []
              && LatestEmbedding(log, tool) == Zeros(EMBEDDING_DIM)
  {
    if log != [] {
      var before, last := log[..|log| - 1], log[|log| - 1];
      TableAgreesWithLog(before, tool);
      if last.correction.correctedTool != tool {
        assert tool in PatternsOf(log) <==> tool in PatternsOf(before);
        assert tool in PatternsOf(log) ==> PatternsOf(log)[tool] == PatternsOf(before)[tool];
      } else if tool in PatternsOf(before) {
        GrownEntry(log, tool, PatternsOf(before)[tool]);
        assert PatternsOf(log)[tool] == Grown(PatternsOf(before)[tool], last);
      } else {
        NewEntry(log, tool);
      }
    }
  }

  lemma {:induction false} FirstOriginalIsSome(log: seq<Save>, tool: Tool)
    ensures |FirstOriginal(log, tool)| <= 1
    ensures forall o :: o in FirstOriginal(log, tool) ==>
              exists s :: s in log && s.correction.correctedTool == tool && s.correction.originalTool == o
  {
    if log != [] {
      var before, last := log[..|log| - 1], log[|log| - 1];
      FirstOriginalIsSome(before, tool);
      assert log == before + [last];
    }
  }

  /** The pattern names the original tool of each of its saves exactly when they all have the same one. */
  lemma OriginalsAreCompleteIff(log: seq<Save>, tool: Tool)
    requires tool in PatternsOf(log)
    ensures (forall s :: s in log && s.correction.correctedTool == tool ==>
               s.correction.originalTool in PatternsOf(log)[tool].originalTools)
            <==>
            (forall s, s' ::
               s in log && s.correction.correctedTool == tool && s' in log && s'.correction.correctedTool == tool ==>
               s.correction.originalTool == s'.correction.originalTool)
  {
    TableAgreesWithLog(log, tool);
    FirstOriginalIsSome(log, tool);
    var named := PatternsOf(log)[tool].originalTools;
    assert named == [named[0]] && named[0] in named;
  }

  lemma {:induction false} ImprovementIsBounded(log: seq<Save>, tool: Tool)
    ensures -(SavesOf(log, tool) as real) <= TotalImprovement(log, tool) <= SavesOf(log, tool) as real
  {
    if log != [] {
      ImprovementIsBounded(log[..|log| - 1], tool);
    }
  }

  /** Hence the average improvement of every stored pattern lies in [-1, 1]. */
  lemma AverageIsBounded(log: seq<Save>, tool: Tool)
    requires tool in PatternsOf(log)
    ensures -1.0 <= PatternsOf(log)[tool].avgConfidenceImprovement <= 1.0
  {
    TableAgreesWithLog(log, tool);
    ImprovementIsBounded(log, tool);
    var p := PatternsOf(log)[tool];
    var n, avg := p.occurrenceCount as real, p.avgConfidenceImprovement;
    if avg > 1.0 { PositiveProduct(n, avg - 1.0, n * avg - n); }
    if avg < -1.0 { PositiveProduct(n, -1.0 - avg, -n - n * avg); }
  }

  lemma {:induction false} ZerosHaveNoLength(n: nat)
    ensures SumSquares(Zeros(n)) == 0.0
  {
    if n > 0 {
      assert Zeros(n)[..n - 1] == Zeros(n - 1);
      ZerosHaveNoLength(n - 1);
    }
  }

  /** Some save of the tool supplied an embedding with a nonzero entry. */
  ghost predicate Taught(log: seq<Save>, tool: Tool) {
    exists i :: 0 <= i < |log| && log[i].correction.correctedTool == tool
                && log[i].embedding.Some? && SumSquares(log[i].embedding.value) != 0.0
  }

  /** A pattern whose saves never supplied a nonzero embedding keeps a zero vector. */
  lemma {:induction false} UntaughtHasNoLength(log: seq<Save>, tool: Tool)
    requires SumSquares(LatestEmbedding(log, tool)) != 0.0
    ensures Taught(log, tool)
  {
    if log == [] {
      ZerosHaveNoLength(EMBEDDING_DIM);
    } else {
      var before, last := log[..|log| - 1], log[|log| - 1];
      if last.correction.correctedTool == tool && last.embedding.Some? {
        assert log[|log| - 1] == last;
      } else {
        UntaughtHasNoLength(before, tool);
        var i :| 0 <= i < |before| && before[i].correction.correctedTool == tool
                 && before[i].embedding.Some? && SumSquares(before[i].embedding.value) != 0.0;
        assert log[i] == before[i];
      }
    }
  }

  ghost function TableTotal(table: map<Tool, CorrectionPattern>, tools: seq<Tool>): nat
    requires forall t :: t in tools ==> t in table
  {
    if tools == [] then 0 else
      TableTotal(table, tools[..|tools| - 1]) + table[tools[|tools| - 1]].occurrenceCount
  }

  lemma {:induction false} TableTotalChange(
    t1: map<Tool, CorrectionPattern>, t2: map<Tool, CorrectionPattern>, tools: seq<Tool>, changed: Tool)
    requires forall t :: t in tools ==> t in t1 && t in t2
    requires forall t :: t in tools && t != changed ==> t1[t] == t2[t]
    requires forall i, j :: 0 <= i < j < |tools| ==> tools[i] != tools[j]
    requires changed in tools ==> t2[changed].occurrenceCount == t1[changed].occurrenceCount + 1
    ensures TableTotal(t2, tools) == TableTotal(t1, tools) + if changed in tools then 1 else 0
  {
    if tools != [] {
      var rest, last := tools[..|tools| - 1], tools[|tools| - 1];
      assert tools == rest + [last];
      TableTotalChange(t1, t2, rest, changed);
    }
  }

  /** Conservation: the counts over all patterns sum to the number of saves. */
  lemma {:induction false} CountsSumToSaves(log: seq<Save>)
    ensures forall t :: t in KeysOf(log) ==> t in PatternsOf(log)
    ensures TableTotal(PatternsOf(log), KeysOf(log)) == |log|
  {
    KeysArePatterns(log);
    if log != [] {
      var before, tool := log[..|log| - 1], log[|log| - 1].correction.correctedTool;
      KeysArePatterns(before);
      CountsSumToSaves(before);
      TableTotalChange(PatternsOf(before), PatternsOf(log), KeysOf(before), tool);
      if tool !in KeysOf(before) {
        assert KeysOf(log)[..|KeysOf(before)|] == KeysOf(before);
      }
    }
  }
}
