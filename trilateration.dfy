/**
 * trilateration: a position from (node location, distance) samples. Fewer
 * than three samples give an inverse-distance weighted centroid; three or
 * more give a linear system, taken relative to the first sample, solved in
 * the least-squares sense.
 */
module Trilateration {
  import opened Json
  import opened Config
  import opened Rounding

  datatype Sample = Sample(node: string, distance: real, location: Point)

  datatype Axis = X | Y

  function Coord(p: Point, axis: Axis): real {
    if axis == X then p.x else p.y
  }

  function Square(v: real): real {
    v * v
  }

  // ---------------------------------------------------------------------
  // Weighted centroid, used for fewer than three samples
  // ---------------------------------------------------------------------

  /** Weight of a sample: 1/d, or 1 for a zero distance. */
  function Weight(d: real): (w: real)
    ensures w != 0.0
    ensures d >= 0.0 ==> w > 0.0
  {
    if d != 0.0 then 1.0 / d else 1.0
  }

  function TotalWeight(s: seq<Sample>): real {
    if s == [] then 0.0
    else TotalWeight(s[..|s| - 1]) + Weight(s[|s| - 1].distance)
  }

  /** Sum of the weighted coordinates along one axis. */
  function WeightedSum(s: seq<Sample>, axis: Axis): real {
    if s == [] then 0.0
    else WeightedSum(s[..|s| - 1], axis) + Coord(s[|s| - 1].location, axis) * Weight(s[|s| - 1].distance)
  }

  /**
   * The weighted average of the locations, each coordinate rounded to one
   * decimal; None where the division by the total weight fails.
   */
  function Centroid(s: seq<Sample>): Option<Point> {
    var total := TotalWeight(s);
    if total == 0.0 then None
    else Some(Point(Round1(WeightedSum(s, X) / total), Round1(WeightedSum(s, Y) / total)))
  }

  /** The accumulator loop of the fallback branch. */
  method WeightedCentroid(samples: seq<Sample>) returns (r: Option<Point>)
    ensures r == Centroid(samples)
  {
    var totalWeight, xSum, ySum := 0.0, 0.0, 0.0;
    var i := 0;
    while i < |samples|
      invariant 0 <= i <= |samples|
      invariant totalWeight == TotalWeight(samples[..i])
      invariant xSum == WeightedSum(samples[..i], X)
      invariant ySum == WeightedSum(samples[..i], Y)
    {
      var d := samples[i].distance;
      var weight := Weight(d);
      totalWeight := totalWeight + weight;
      xSum := xSum + samples[i].location.x * weight;
      ySum := ySum + samples[i].location.y * weight;
      assert samples[..i + 1][..i] == samples[..i];
      i := i + 1;
    }
    assert samples[..i] == samples;
    if totalWeight == 0.0 {
      // the source divides by zero here
      return None;
    }
    r := Some(Point(Round1(xSum / totalWeight), Round1(ySum / totalWeight)));
  }

  lemma ScaledQuotient(x: real, w: real)
    requires w != 0.0
    ensures (x * w) / w == x
  {
  }

  lemma ScaledMean(x: real, y: real, w: real)
    requires w != 0.0
    ensures ((x + y) * w) / (2.0 * w) == (x + y) / 2.0
  {
  }

  /** A single sample yields its own location. */
  lemma CentroidOfOne(a: Sample)
    ensures Centroid([a]) == Some(Point(Round1(a.location.x), Round1(a.location.y)))
  {
    var s := [a];
    var w := Weight(a.distance);
    assert TotalWeight(s) == w by {
      assert s[..0] == [];
    }
    assert WeightedSum(s, X) / w == a.location.x by {
      assert s[..0] == [];
      ScaledQuotient(a.location.x, w);
    }
    assert WeightedSum(s, Y) / w == a.location.y by {
      assert s[..0] == [];
      ScaledQuotient(a.location.y, w);
    }
  }

  /** Two samples at the same distance yield their midpoint. */
  lemma CentroidOfEquidistantPair(a: Sample, b: Sample)
    requires a.distance == b.distance
    ensures Centroid([a, b]) ==
              Some(Point(Round1((a.location.x + b.location.x) / 2.0),
                         Round1((a.location.y + b.location.y) / 2.0)))
  {
    var s := [a, b];
    var w := Weight(a.distance);
    assert TotalWeight(s) == 2.0 * w by {
      assert s[..1] == [a];
      assert s[..1][..0] == [];
      assert TotalWeight(s[..1]) == w;
      assert Weight(s[1].distance) == w;
    }
    assert WeightedSum(s, X) / (2.0 * w) == (a.location.x + b.location.x) / 2.0 by {
      assert s[..1] == [a];
      assert s[..1][..0] == [];
      assert WeightedSum(s[..1], X) == a.location.x * w;
      assert WeightedSum(s, X) == a.location.x * w + b.location.x * w;
      assert WeightedSum(s, X) == (a.location.x + b.location.x) * w;
      ScaledMean(a.location.x, b.location.x, w);
    }
    assert WeightedSum(s, Y) / (2.0 * w) == (a.location.y + b.location.y) / 2.0 by {
      assert s[..1] == [a];
      assert s[..1][..0] == [];
      assert WeightedSum(s[..1], Y) == a.location.y * w;
      assert WeightedSum(s, Y) == a.location.y * w + b.location.y * w;
      assert WeightedSum(s, Y) == (a.location.y + b.location.y) * w;
      ScaledMean(a.location.y, b.location.y, w);
    }
  }

  lemma CentroidExample()
    ensures Centroid([Sample("Node_A", 1.0, Point(0.0, 0.0)), Sample("Node_B", 1.0, Point(10.0, 0.0))])
              == Some(Point(5.0, 0.0))
  {
    CentroidOfEquidistantPair(Sample("Node_A", 1.0, Point(0.0, 0.0)), Sample("Node_B", 1.0, Point(10.0, 0.0)));
    Round1OfTenths(50);
    Round1OfTenths(0);
  }

  /** No samples, or weights that cancel out, leave the centroid undefined. */
  lemma CentroidUndefined(a: Sample, b: Sample)
    requires a.distance == 1.0 && b.distance == -1.0
    ensures Centroid([]) == None
    ensures Centroid([a, b]) == None
  {
    var s := [a, b];
    assert s[..1] == [a];
    assert s[..1][..0] == [];
    assert TotalWeight(s[..1]) == 1.0;
    assert TotalWeight(s) == 0.0;
  }

  lemma {:induction false} TotalWeightPositive(s: seq<Sample>)
    requires s != []
    requires forall i :: 0 <= i < |s| ==> s[i].distance >= 0.0
    ensures TotalWeight(s) > 0.0
  {
    if |s| > 1 {
      TotalWeightPositive(s[..|s| - 1]);
    }
  }

  lemma {:induction false} WeightedSumAtLeast(s: seq<Sample>, axis: Axis, lo: real)
    requires forall i :: 0 <= i < |s| ==> s[i].distance >= 0.0
    requires forall i :: 0 <= i < |s| ==> lo <= Coord(s[i].location, axis)
    ensures lo * TotalWeight(s) <= WeightedSum(s, axis)
  {
    if s != [] {
      var init, last := s[..|s| - 1], s[|s| - 1];
      assert lo * TotalWeight(init) <= WeightedSum(init, axis) by {
        assert forall i :: 0 <= i < |init| ==> init[i] == s[i];
        WeightedSumAtLeast(init, axis, lo);
      }
      LowerBoundStep(lo, TotalWeight(init), WeightedSum(init, axis), Weight(last.distance),
                     Coord(last.location, axis), TotalWeight(s), WeightedSum(s, axis));
    }
  }

  lemma {:induction false} WeightedSumAtMost(s: seq<Sample>, axis: Axis, hi: real)
    requires forall i :: 0 <= i < |s| ==> s[i].distance >= 0.0
    requires forall i :: 0 <= i < |s| ==> Coord(s[i].location, axis) <= hi
    ensures WeightedSum(s, axis) <= hi * TotalWeight(s)
  {
    if s != [] {
      var init, last := s[..|s| - 1], s[|s| - 1];
      assert WeightedSum(init, axis) <= hi * TotalWeight(init) by {
        assert forall i :: 0 <= i < |init| ==> init[i] == s[i];
        WeightedSumAtMost(init, axis, hi);
      }
      UpperBoundStep(hi, TotalWeight(init), WeightedSum(init, axis), Weight(last.distance),
                     Coord(last.location, axis), TotalWeight(s), WeightedSum(s, axis));
    }
  }

  /** One more sample of weight w at coordinate c keeps the lower bound. */
  lemma LowerBoundStep(lo: real, t0: real, s0: real, w: real, c: real, t: real, sum: real)
    requires lo * t0 <= s0 && w > 0.0 && lo <= c
    requires t == t0 + w && sum == s0 + c * w
    ensures lo * t <= sum
  {
    ScaleBounds(c, w, lo, c);
  }

  /** One more sample of weight w at coordinate c keeps the upper bound. */
  lemma UpperBoundStep(hi: real, t0: real, s0: real, w: real, c: real, t: real, sum: real)
    requires s0 <= hi * t0 && w > 0.0 && c <= hi
    requires t == t0 + w && sum == s0 + c * w
    ensures sum <= hi * t
  {
    ScaleBounds(c, w, c, hi);
  }

  lemma ScaleBounds(c: real, w: real, lo: real, hi: real)
    requires w > 0.0 && lo <= c <= hi
    ensures lo * w <= c * w <= hi * w
  {
  }

  lemma QuotientBounds(a: real, t: real, lo: real, hi: real)
    requires t > 0.0 && lo * t <= a <= hi * t
    ensures lo <= a / t <= hi
  {
    var q := a / t;
    assert q * t == a;
  }

  /**
   * With non-negative distances every weight is positive, so the centroid
   * exists and lies within the bounding box of the locations.
   */
  lemma CentroidWithinBounds(s: seq<Sample>, axis: Axis, lo: real, hi: real)
    requires s != []
    requires forall i :: 0 <= i < |s| ==> s[i].distance >= 0.0
    requires forall i :: 0 <= i < |s| ==> lo <= Coord(s[i].location, axis) <= hi
    ensures Centroid(s).Some?
    ensures Round1(lo) <= Coord(Centroid(s).value, axis) <= Round1(hi)
  {
    TotalWeightPositive(s);
    WeightedSumAtLeast(s, axis, lo);
    WeightedSumAtMost(s, axis, hi);
    var total := TotalWeight(s);
    var q := WeightedSum(s, axis) / total;
    QuotientBounds(WeightedSum(s, axis), total, lo, hi);
    Round1Monotone(lo, q);
    Round1Monotone(q, hi);
  }

  // ---------------------------------------------------------------------
  // Linear system, used for three or more samples
  // ---------------------------------------------------------------------

  /** One row of A: the coefficients of x and y. */
  datatype Coeffs = Coeffs(ax: real, ay: real)

  function RowFor(reference: Sample, s: Sample): Coeffs {
    Coeffs(2.0 * (s.location.x - reference.location.x), 2.0 * (s.location.y - reference.location.y))
  }

  /** The right-hand side as the source computes it: it adds di² - d1². */
  function RhsAsWritten(reference: Sample, s: Sample): real {
    Square(s.location.x) - Square(reference.location.x)
    + Square(s.location.y) - Square(reference.location.y)
    + Square(s.distance) - Square(reference.distance)
  }

  /** The right-hand side of the correct linearisation: it subtracts di² - d1². */
  function RhsCorrected(reference: Sample, s: Sample): real {
    Square(s.location.x) - Square(reference.location.x)
    + Square(s.location.y) - Square(reference.location.y)
    - (Square(s.distance) - Square(reference.distance))
  }

  function Rows(s: seq<Sample>): seq<Coeffs>
    requires |s| >= 1
  {
    seq(|s| - 1, i requires 0 <= i < |s| - 1 => RowFor(s[0], s[i + 1]))
  }

  function Rhs(s: seq<Sample>): seq<real>
    requires |s| >= 1
  {
    seq(|s| - 1, i requires 0 <= i < |s| - 1 => RhsAsWritten(s[0], s[i + 1]))
  }

  function CorrectedRhs(s: seq<Sample>): seq<real>
    requires |s| >= 1
  {
    seq(|s| - 1, i requires 0 <= i < |s| - 1 => RhsCorrected(s[0], s[i + 1]))
  }

  /**
   * The loop that fills A and b: one row per sample after the first, in
   * order, each taken relative to the first sample.
   */
  method BuildSystem(samples: seq<Sample>) returns (A: seq<Coeffs>, b: seq<real>)
    requires |samples| >= 1
    ensures A == Rows(samples) && b == Rhs(samples)
  {
    var reference := samples[0];
    A, b := [], [];
    var i := 1;
    while i < |samples|
      invariant 1 <= i <= |samples|
      invariant |A| == |b| == i - 1
      invariant forall j :: 0 <= j < i - 1 ==> A[j] == RowFor(reference, samples[j + 1])
      invariant forall j :: 0 <= j < i - 1 ==> b[j] == RhsAsWritten(reference, samples[j + 1])
    {
      var s := samples[i];
      A := A + [Coeffs(2.0 * (s.location.x - reference.location.x), 2.0 * (s.location.y - reference.location.y))];
      b := b + [Square(s.location.x) - Square(reference.location.x)
                + Square(s.location.y) - Square(reference.location.y)
                + Square(s.distance) - Square(reference.distance)];
      i := i + 1;
    }
  }

  // ---------------------------------------------------------------------
  // Least squares for two unknowns
  // ---------------------------------------------------------------------

  /** Entries of AᵀA and Aᵀb. */
  function SumXX(A: seq<Coeffs>): real {
    if A == [] then 0.0 else SumXX(A[..|A| - 1]) + A[|A| - 1].ax * A[|A| - 1].ax
  }

  function SumXY(A: seq<Coeffs>): real {
    if A == [] then 0.0 else SumXY(A[..|A| - 1]) + A[|A| - 1].ax * A[|A| - 1].ay
  }

  function SumYY(A: seq<Coeffs>): real {
    if A == [] then 0.0 else SumYY(A[..|A| - 1]) + A[|A| - 1].ay * A[|A| - 1].ay
  }

  function SumXB(A: seq<Coeffs>, b: seq<real>): real
    requires |A| == |b|
  {
    if A == [] then 0.0 else SumXB(A[..|A| - 1], b[..|b| - 1]) + A[|A| - 1].ax * b[|b| - 1]
  }

  function SumYB(A: seq<Coeffs>, b: seq<real>): real
    requires |A| == |b|
  {
    if A == [] then 0.0 else SumYB(A[..|A| - 1], b[..|b| - 1]) + A[|A| - 1].ay * b[|b| - 1]
  }

  /** Determinant of AᵀA; non-zero exactly when A has rank 2. */
  function Det(A: seq<Coeffs>): real {
    Det2(SumXX(A), SumXY(A), SumYY(A))
  }

  /** The 2x2 determinant of the symmetric matrix [xx xy; xy yy]. */
  function Det2(xx: real, xy: real, yy: real): real {
    xx * yy - xy * xy
  }

  /** v solves the normal equations [xx xy; xy yy] v = [xb; yb]. */
  predicate NormalEquations(xx: real, xy: real, yy: real, xb: real, yb: real, v: Point) {
    xx * v.x + xy * v.y == xb && xy * v.x + yy * v.y == yb
  }

  lemma Cramer(a: real, b: real, c: real, p: real, q: real)
    requires Det2(a, b, c) != 0.0
    ensures NormalEquations(a, b, c, p, q, Point((c * p - b * q) / Det2(a, b, c), (a * q - b * p) / Det2(a, b, c)))
  {
    var det := a * c - b * b;
    var x := (c * p - b * q) / det;
    var y := (a * q - b * p) / det;
    assert x * det == c * p - b * q;
    assert y * det == a * q - b * p;
    assert (a * x + b * y) * det == a * (x * det) + b * (y * det);
    assert (a * x + b * y) * det == p * det;
    assert (b * x + c * y) * det == b * (x * det) + c * (y * det);
    assert (b * x + c * y) * det == q * det;
  }

  /**
   * What every right-hand side built from a real matrix satisfies: with a
   * singular [xx xy; xy yy], [xb; yb] lies in its column space.
   */
  predicate InColumnSpace(xx: real, xy: real, yy: real, xb: real, yb: real) {
    Det2(xx, xy, yy) == 0.0 ==>
      && yy * xb == xy * yb
      && xx * yb == xy * xb
      && (xx + yy == 0.0 ==> xb == 0.0 && yb == 0.0)
  }

  /**
   * The minimum-norm solution of the normal equations
   * [xx xy; xy yy] v = [xb; yb]: Cramer's rule when the matrix is
   * invertible, [xb; yb] / trace in the rank-1 case, zero otherwise.
   */
  function SolveNormal(xx: real, xy: real, yy: real, xb: real, yb: real): (v: Point)
    ensures Det2(xx, xy, yy) != 0.0 ==> NormalEquations(xx, xy, yy, xb, yb, v)
    ensures InColumnSpace(xx, xy, yy, xb, yb) ==> NormalEquations(xx, xy, yy, xb, yb, v)
  {
    var det := Det2(xx, xy, yy);
    if det != 0.0 then
      Cramer(xx, xy, yy, xb, yb);
      Point((yy * xb - xy * yb) / det, (xx * yb - xy * xb) / det)
    else if xx + yy != 0.0 then
      TraceSolution(xx, xy, yy, xb, yb);
      Point(xb / (xx + yy), yb / (xx + yy))
    else
      Point(0.0, 0.0)
  }

  lemma TraceSolution(xx: real, xy: real, yy: real, xb: real, yb: real)
    requires xx + yy != 0.0 && Det2(xx, xy, yy) == 0.0
    ensures InColumnSpace(xx, xy, yy, xb, yb) ==>
              NormalEquations(xx, xy, yy, xb, yb, Point(xb / (xx + yy), yb / (xx + yy)))
  {
    var t := xx + yy;
    var x, y := xb / t, yb / t;
    assert x * t == xb && y * t == yb;
    assert (xx * x + xy * y) * t == xx * xb + xy * yb;
    assert (xy * x + yy * y) * t == xy * xb + yy * yb;
  }

  /**
   * np.linalg.lstsq for two unknowns, in exact arithmetic: a solution of the
   * normal equations AᵀA v = Aᵀb, so a least-squares solution, whatever the
   * rank of A. With AᵀA invertible it is the only one.
   */
  function LeastSquares(A: seq<Coeffs>, b: seq<real>): (v: Point)
    requires |A| == |b|
    ensures NormalEquations(SumXX(A), SumXY(A), SumYY(A), SumXB(A, b), SumYB(A, b), v)
  {
    NormalRhsInColumnSpace(A, b);
    SolveNormal(SumXX(A), SumXY(A), SumYY(A), SumXB(A, b), SumYB(A, b))
  }

  // The rank-deficient case: Aᵀb always lies in the column space of AᵀA.

  /** Σ (p·ax + q·ay)² over the rows of A: the squared norm of A [p; q]. */
  function SumSq(A: seq<Coeffs>, p: real, q: real): real {
    if A == [] then 0.0
    else SumSq(A[..|A| - 1], p, q) + Square(p * A[|A| - 1].ax + q * A[|A| - 1].ay)
  }

  /** Σ (p·ax + q·ay)·b over the rows of A: the product of A [p; q] with b. */
  function SumDot(A: seq<Coeffs>, b: seq<real>, p: real, q: real): real
    requires |A| == |b|
  {
    if A == [] then 0.0
    else SumDot(A[..|A| - 1], b[..|b| - 1], p, q) + (p * A[|A| - 1].ax + q * A[|A| - 1].ay) * b[|b| - 1]
  }

  lemma SqStep(p: real, q: real, x: real, y: real, s0: real, xx0: real, xy0: real, yy0: real)
    requires s0 == p * p * xx0 + 2.0 * p * q * xy0 + q * q * yy0
    ensures s0 + Square(p * x + q * y) == p * p * (xx0 + x * x) + 2.0 * p * q * (xy0 + x * y) + q * q * (yy0 + y * y)
  {
  }

  lemma {:induction false} SumSqExpand(A: seq<Coeffs>, p: real, q: real)
    ensures SumSq(A, p, q) == p * p * SumXX(A) + 2.0 * p * q * SumXY(A) + q * q * SumYY(A)
  {
    if A != [] {
      var init, r := A[..|A| - 1], A[|A| - 1];
      SumSqExpand(init, p, q);
      SqStep(p, q, r.ax, r.ay, SumSq(init, p, q), SumXX(init), SumXY(init), SumYY(init));
    }
  }

  lemma DotStep(p: real, q: real, x: real, y: real, c: real, s0: real, xb0: real, yb0: real)
    requires s0 == p * xb0 + q * yb0
    ensures s0 + (p * x + q * y) * c == p * (xb0 + x * c) + q * (yb0 + y * c)
  {
  }

  lemma {:induction false} SumDotExpand(A: seq<Coeffs>, b: seq<real>, p: real, q: real)
    requires |A| == |b|
    ensures SumDot(A, b, p, q) == p * SumXB(A, b) + q * SumYB(A, b)
  {
    if A != [] {
      var n := |A| - 1;
      SumDotExpand(A[..n], b[..n], p, q);
      DotStep(p, q, A[n].ax, A[n].ay, b[n], SumDot(A[..n], b[..n], p, q), SumXB(A[..n], b[..n]), SumYB(A[..n], b[..n]));
    }
  }

  lemma SquareZero(z: real)
    requires Square(z) == 0.0
    ensures z == 0.0
  {
    if z != 0.0 {
      ScaledQuotient(z, z);
    }
  }

  /** A vanishing sum of squares forces every term, and so every product with b, to vanish. */
  lemma {:induction false} SumSqZero(A: seq<Coeffs>, b: seq<real>, p: real, q: real)
    requires |A| == |b|
    ensures SumSq(A, p, q) >= 0.0
    ensures SumSq(A, p, q) == 0.0 ==> SumDot(A, b, p, q) == 0.0
  {
    if A != [] {
      var n := |A| - 1;
      SumSqZero(A[..n], b[..n], p, q);
      var z := p * A[n].ax + q * A[n].ay;
      assert Square(z) >= 0.0;
      if SumSq(A, p, q) == 0.0 {
        SquareZero(z);
      }
    }
  }

  /** A direction [p; q] that A maps to zero is orthogonal to Aᵀb. */
  lemma NullDirection(A: seq<Coeffs>, b: seq<real>, p: real, q: real)
    requires |A| == |b|
    requires p * p * SumXX(A) + 2.0 * p * q * SumXY(A) + q * q * SumYY(A) == 0.0
    ensures p * SumXB(A, b) + q * SumYB(A, b) == 0.0
  {
    SumSqExpand(A, p, q);
    SumSqZero(A, b, p, q);
    SumDotExpand(A, b, p, q);
  }

  /** The diagonal of AᵀA is non-negative, and a zero entry makes the matching entry of Aᵀb zero. */
  lemma GramDiagonal(A: seq<Coeffs>, b: seq<real>)
    requires |A| == |b|
    ensures SumXX(A) >= 0.0 && SumYY(A) >= 0.0
    ensures SumXX(A) == 0.0 ==> SumXB(A, b) == 0.0
    ensures SumYY(A) == 0.0 ==> SumYB(A, b) == 0.0
  {
    SumSqExpand(A, 1.0, 0.0);
    SumSqZero(A, b, 1.0, 0.0);
    SumSqExpand(A, 0.0, 1.0);
    SumSqZero(A, b, 0.0, 1.0);
    if SumXX(A) == 0.0 {
      NullDirection(A, b, 1.0, 0.0);
    }
    if SumYY(A) == 0.0 {
      NullDirection(A, b, 0.0, 1.0);
    }
  }

  lemma GramIdentities(xx: real, xy: real, yy: real)
    ensures yy * yy * xx + 2.0 * yy * (-xy) * xy + (-xy) * (-xy) * yy == yy * Det2(xx, xy, yy)
    ensures (-xy) * (-xy) * xx + 2.0 * (-xy) * xx * xy + xx * xx * yy == xx * Det2(xx, xy, yy)
  {
  }

  /** Aᵀb lies in the column space of AᵀA, whatever the rank of A. */
  lemma NormalRhsInColumnSpace(A: seq<Coeffs>, b: seq<real>)
    requires |A| == |b|
    ensures InColumnSpace(SumXX(A), SumXY(A), SumYY(A), SumXB(A, b), SumYB(A, b))
  {
    var xx, xy, yy := SumXX(A), SumXY(A), SumYY(A);
    var xb, yb := SumXB(A, b), SumYB(A, b);
    GramDiagonal(A, b);
    if Det2(xx, xy, yy) == 0.0 {
      GramIdentities(xx, xy, yy);
      NullDirection(A, b, yy, -xy);
      NullDirection(A, b, -xy, xx);
      assert yy * xb == xy * yb;
      assert xx * yb == xy * xb;
    }
  }

  /** p satisfies the equation c · v = rhs. */
  predicate RowHolds(c: Coeffs, rhs: real, p: Point) {
    c.ax * p.x + c.ay * p.y == rhs
  }

  /** p satisfies every equation of the system A v = b. */
  predicate Satisfies(A: seq<Coeffs>, b: seq<real>, p: Point)
    requires |A| == |b|
  {
    forall i :: 0 <= i < |A| ==> RowHolds(A[i], b[i], p)
  }

  lemma RowStep(s1: real, s2: real, u: real, v: real, w: real, px: real, py: real, rhs: real)
    requires rhs == v * px + w * py
    ensures (s1 + u * v) * px + (s2 + u * w) * py == s1 * px + s2 * py + u * rhs
  {
  }

  lemma {:induction false} ConsistentSumXB(A: seq<Coeffs>, b: seq<real>, p: Point)
    requires |A| == |b| && Satisfies(A, b, p)
    ensures SumXB(A, b) == SumXX(A) * p.x + SumXY(A) * p.y
  {
    if A != [] {
      var n := |A| - 1;
      ConsistentSumXB(A[..n], b[..n], p);
      var r := A[n];
      RowStep(SumXX(A[..n]), SumXY(A[..n]), r.ax, r.ax, r.ay, p.x, p.y, b[n]);
    }
  }

  lemma {:induction false} ConsistentSumYB(A: seq<Coeffs>, b: seq<real>, p: Point)
    requires |A| == |b| && Satisfies(A, b, p)
    ensures SumYB(A, b) == SumXY(A) * p.x + SumYY(A) * p.y
  {
    if A != [] {
      var n := |A| - 1;
      ConsistentSumYB(A[..n], b[..n], p);
      var r := A[n];
      assert r.ax * r.ay == r.ay * r.ax;
      RowStep(SumXY(A[..n]), SumYY(A[..n]), r.ay, r.ax, r.ay, p.x, p.y, b[n]);
    }
  }

  /** When A has rank 2 and the system has an exact solution, the solve returns it. */
  lemma ExactSolutionRecovered(A: seq<Coeffs>, b: seq<real>, p: Point)
    requires |A| == |b| && Satisfies(A, b, p) && Det(A) != 0.0
    ensures LeastSquares(A, b) == p
  {
    ConsistentSumXB(A, b, p);
    ConsistentSumYB(A, b, p);
    CramerUnique(SumXX(A), SumXY(A), SumYY(A), SumXB(A, b), SumYB(A, b), p);
  }

  /** Solving AᵀA v = AᵀA p with AᵀA invertible gives back p. */
  lemma CramerUnique(xx: real, xy: real, yy: real, xb: real, yb: real, p: Point)
    requires Det2(xx, xy, yy) != 0.0
    requires xb == xx * p.x + xy * p.y && yb == xy * p.x + yy * p.y
    ensures SolveNormal(xx, xy, yy, xb, yb) == p
  {
    var det := xx * yy - xy * xy;
    var px, py := p.x, p.y;
    assert yy * xb - xy * yb == det * px;
    assert xx * yb - xy * xb == det * py;
    DivCancel(yy * xb - xy * yb, det, px);
    DivCancel(xx * yb - xy * xb, det, py);
  }

  lemma DivCancel(n: real, d: real, q: real)
    requires d != 0.0 && n == d * q
    ensures n / d == q
  {
  }

  // ---------------------------------------------------------------------
  // What the linear system says about the true position
  // ---------------------------------------------------------------------

  /** Every distance is the exact Euclidean distance from its node to p. */
  predicate ExactDistances(s: seq<Sample>, p: Point) {
    forall i :: 0 <= i < |s| ==>
      Square(s[i].distance) == Square(s[i].location.x - p.x) + Square(s[i].location.y - p.y)
  }

  lemma CorrectedRowHolds(reference: Sample, s: Sample, p: Point)
    requires ExactDistances([reference, s], p)
    ensures RowHolds(RowFor(reference, s), RhsCorrected(reference, s), p)
  {
    assert [reference, s][0] == reference && [reference, s][1] == s;
  }

  /**
   * The as-written equation differs from the correct one by 2(di² - d1²),
   * so the true position satisfies it exactly when di² == d1².
   */
  lemma AsWrittenRowHoldsIff(reference: Sample, s: Sample, p: Point)
    requires ExactDistances([reference, s], p)
    ensures RowHolds(RowFor(reference, s), RhsAsWritten(reference, s), p)
            <==> Square(s.distance) == Square(reference.distance)
  {
    CorrectedRowHolds(reference, s, p);
    assert RhsAsWritten(reference, s) - RhsCorrected(reference, s)
           == 2.0 * (Square(s.distance) - Square(reference.distance));
  }

  lemma PairExact(s: seq<Sample>, p: Point, i: nat)
    requires ExactDistances(s, p) && 0 < i < |s|
    ensures ExactDistances([s[0], s[i]], p)
  {
    var pair := [s[0], s[i]];
    assert forall j :: 0 <= j < 2 ==> pair[j] == s[if j == 0 then 0 else i];
  }

  /** The true position satisfies every row of the corrected system. */
  lemma CorrectedSystemSatisfied(s: seq<Sample>, p: Point)
    requires |s| >= 1 && ExactDistances(s, p)
    ensures Satisfies(Rows(s), CorrectedRhs(s), p)
  {
    forall i | 0 <= i < |s| - 1
      ensures RowHolds(Rows(s)[i], CorrectedRhs(s)[i], p)
    {
      PairExact(s, p, i + 1);
      CorrectedRowHolds(s[0], s[i + 1], p);
    }
  }

  /**
   * With exact distances and non-collinear nodes, solving the corrected
   * system recovers the true position.
   */
  lemma CorrectedRecoversTruePoint(s: seq<Sample>, p: Point)
    requires |s| >= 1 && ExactDistances(s, p) && Det(Rows(s)) != 0.0
    ensures LeastSquares(Rows(s), CorrectedRhs(s)) == p
  {
    CorrectedSystemSatisfied(s, p);
    ExactSolutionRecovered(Rows(s), CorrectedRhs(s), p);
  }

  /**
   * The true position satisfies the system the source builds exactly when
   * every distance has the same square as the reference distance.
   */
  lemma AsWrittenSatisfiedIff(s: seq<Sample>, p: Point)
    requires |s| >= 1 && ExactDistances(s, p)
    ensures Satisfies(Rows(s), Rhs(s), p)
            <==> forall t :: t in s[1..] ==> Square(t.distance) == Square(s[0].distance)
  {
    var A, b := Rows(s), Rhs(s);
    forall j | 0 <= j < |A|
      ensures RowHolds(A[j], b[j], p) <==> Square(s[j + 1].distance) == Square(s[0].distance)
    {
      PairExact(s, p, j + 1);
      AsWrittenRowHoldsIff(s[0], s[j + 1], p);
    }
    if Satisfies(A, b, p) {
      forall t | t in s[1..] ensures Square(t.distance) == Square(s[0].distance) {
        var j :| 0 <= j < |s| - 1 && s[1..][j] == t;
        assert RowHolds(A[j], b[j], p);
      }
    }
    if forall t :: t in s[1..] ==> Square(t.distance) == Square(s[0].distance) {
      forall j | 0 <= j < |A| ensures RowHolds(A[j], b[j], p) {
        assert s[1..][j] == s[j + 1];
      }
    }
  }

  /**
   * Nodes (0,0), (10,0), (0,10) and exact distances from (3,4): the system
   * the source builds solves to (7,6), the corrected one to (3,4).
   */
  lemma AsWrittenMissesTruePoint(d1: real, d2: real, d3: real)
    requires Square(d1) == 25.0 && Square(d2) == 65.0 && Square(d3) == 45.0
    ensures var s := [Sample("Node_A", d1, Point(0.0, 0.0)),
                      Sample("Node_B", d2, Point(10.0, 0.0)),
                      Sample("Node_C", d3, Point(0.0, 10.0))];
            && ExactDistances(s, Point(3.0, 4.0))
            && LeastSquares(Rows(s), Rhs(s)) == Point(7.0, 6.0)
            && LeastSquares(Rows(s), CorrectedRhs(s)) == Point(3.0, 4.0)
  {
    var s := [Sample("Node_A", d1, Point(0.0, 0.0)),
              Sample("Node_B", d2, Point(10.0, 0.0)),
              Sample("Node_C", d3, Point(0.0, 10.0))];
    var A := Rows(s);
    assert A == [Coeffs(20.0, 0.0), Coeffs(0.0, 20.0)];
    assert Rhs(s) == [140.0, 120.0];
    assert CorrectedRhs(s) == [60.0, 80.0];
    var A1: seq<Coeffs> := [Coeffs(20.0, 0.0)];
    assert A[..1] == A1 && A1[..0] == [];
    assert SumXX(A1) == 400.0 && SumYY(A1) == 0.0 && SumXY(A1) == 0.0;
    assert SumXX(A) == 400.0 && SumYY(A) == 400.0 && SumXY(A) == 0.0;
    assert Det(A) == 160000.0;
    assert Satisfies(A, Rhs(s), Point(7.0, 6.0)) by {
      assert RowHolds(A[0], Rhs(s)[0], Point(7.0, 6.0));
      assert RowHolds(A[1], Rhs(s)[1], Point(7.0, 6.0));
    }
    assert Satisfies(A, CorrectedRhs(s), Point(3.0, 4.0)) by {
      assert RowHolds(A[0], CorrectedRhs(s)[0], Point(3.0, 4.0));
      assert RowHolds(A[1], CorrectedRhs(s)[1], Point(3.0, 4.0));
    }
    ExactSolutionRecovered(A, Rhs(s), Point(7.0, 6.0));
    ExactSolutionRecovered(A, CorrectedRhs(s), Point(3.0, 4.0));
  }

  // ---------------------------------------------------------------------
  // trilateration
  // ---------------------------------------------------------------------

  /** The position trilateration returns; None where the fallback divides by zero. */
  function Locate(s: seq<Sample>): (r: Option<Point>)
    ensures |s| >= 3 ==> r.Some?
    ensures r.Some? ==> (r.value.x * 10.0).Floor as real == r.value.x * 10.0
    ensures r.Some? ==> (r.value.y * 10.0).Floor as real == r.value.y * 10.0
  {
    if |s| < 3 then Centroid(s)
    else
      var v := LeastSquares(Rows(s), Rhs(s));
      Some(Point(Round1(v.x), Round1(v.y)))
  }

  /**
   * trilateration with the right-hand side of the correct linearisation;
   * the fallback branch is unchanged.
   */
  function LocateCorrected(s: seq<Sample>): Option<Point> {
    if |s| < 3 then Centroid(s)
    else
      var v := LeastSquares(Rows(s), CorrectedRhs(s));
      Some(Point(Round1(v.x), Round1(v.y)))
  }

  /**
   * With three or more exact distances from non-collinear nodes, the
   * corrected solve returns the true position, rounded to one decimal.
   */
  lemma CorrectedLocateRecovers(s: seq<Sample>, p: Point)
    requires |s| >= 3 && ExactDistances(s, p) && Det(Rows(s)) != 0.0
    ensures LocateCorrected(s) == Some(Point(Round1(p.x), Round1(p.y)))
  {
    CorrectedRecoversTruePoint(s, p);
  }

  /**
   * The positions trilateration publishes for nodes (0,0), (10,0), (0,10)
   * and exact distances from (3,4): (7.0, 6.0) as written, (3.0, 4.0)
   * once corrected.
   */
  lemma LocateMissesTruePoint(d1: real, d2: real, d3: real)
    requires Square(d1) == 25.0 && Square(d2) == 65.0 && Square(d3) == 45.0
    ensures var s := [Sample("Node_A", d1, Point(0.0, 0.0)),
                      Sample("Node_B", d2, Point(10.0, 0.0)),
                      Sample("Node_C", d3, Point(0.0, 10.0))];
            && Locate(s) == Some(Point(7.0, 6.0))
            && LocateCorrected(s) == Some(Point(3.0, 4.0))
  {
    AsWrittenMissesTruePoint(d1, d2, d3);
    Round1OfTenths(70);
    Round1OfTenths(60);
    Round1OfTenths(30);
    Round1OfTenths(40);
    assert 70 as real / 10.0 == 7.0 && 60 as real / 10.0 == 6.0;
    assert 30 as real / 10.0 == 3.0 && 40 as real / 10.0 == 4.0;
  }

  method Trilaterate(samples: seq<Sample>) returns (location: Option<Point>)
    ensures location == Locate(samples)
  {
    if |samples| < 3 {
      location := WeightedCentroid(samples);
      return;
    }
    var A, b := BuildSystem(samples);
    var solution := LeastSquares(A, b);
    location := Some(Point(Round1(solution.x), Round1(solution.y)));
  }
}
