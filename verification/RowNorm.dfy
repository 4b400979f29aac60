/** What both RmsNorm kernels do to a row, in exact reals: each element times its weight over the root
    of the mean square plus epsilon. The square root is a parameter. */
module RowNorm {
  import opened Layout

  function SquareSum(xs: seq<real>): real {
    if xs == [] then 0.0 else SquareSum(Init(xs)) + Last(xs) * Last(xs)
  }

  lemma {:induction false} SquareSumNonNegative(xs: seq<real>)
    ensures SquareSum(xs) >= 0.0
  {
    if xs != [] {
      SquareSumNonNegative(Init(xs));
    }
  }

  lemma {:induction false} SquareSumAppend(a: seq<real>, b: seq<real>)
    ensures SquareSum(a + b) == SquareSum(a) + SquareSum(b)
    decreases |b|
  {
    if b == [] {
      assert a + b == a;
    } else {
      SquareSumAppend(a, Init(b));
      assert Init(a + b) == a + Init(b) && Last(a + b) == Last(b);
    }
  }

  lemma MeanNonNegative(xs: seq<real>)
    requires xs != []
    ensures SquareSum(xs) / (|xs| as real) >= 0.0
  {
    SquareSumNonNegative(xs);
  }

  /** With `SquareSumAppend`: one square for every element. */
  lemma SquareSumOne(x: real)
    ensures SquareSum([x]) == x * x
  {
    assert Init([x]) == [];
  }

  lemma {:induction false} SquareSumScaled(xs: seq<real>, ys: seq<real>, factor: real, square: real)
    requires |xs| == |ys| && square == factor * factor
    requires forall p :: 0 <= p < |xs| ==> ys[p] == xs[p] * factor
    ensures SquareSum(ys) == SquareSum(xs) * square
    decreases |xs|
  {
    hide SquareSum;
    if xs == [] {
      SquareSumEmpty();
    } else {
      SquareSumScaled(Init(xs), Init(ys), factor, square);
      SquareSumLast(xs);
      SquareSumLast(ys);
      ScaledSquare(SquareSum(Init(xs)), SquareSum(Init(ys)), Last(xs), Last(ys), factor, square);
    }
  }

  lemma SquareSumEmpty()
    ensures SquareSum([]) == 0.0
  {
  }

  lemma SquareSumLast(xs: seq<real>)
    requires xs != []
    ensures SquareSum(xs) == SquareSum(Init(xs)) + Last(xs) * Last(xs)
  {
  }

  lemma ScaledSquare(sumX: real, sumY: real, x: real, y: real, factor: real, square: real)
    requires square == factor * factor && sumY == sumX * square && y == x * factor
    ensures sumY + y * y == (sumX + x * x) * square
  {
    assert y * y == x * x * (factor * factor);
  }

  /** The accumulation over one loaded buffer. */
  method SumBuffer(buffer: seq<real>) returns (batchSum: real)
    ensures batchSum == SquareSum(buffer)
  {
    batchSum := 0.0;
    for i := 0 to |buffer|
      invariant batchSum == SquareSum(buffer[..i])
    {
      assert Init(buffer[..i + 1]) == buffer[..i];
      batchSum := batchSum + buffer[i] * buffer[i];
    }
    assert buffer[..|buffer|] == buffer;
  }

  /** The weights, epsilon, and the device square root. */
  datatype Rms = Rms(weight: seq<real>, epsilon: real, sqrt: real -> real) {
    ghost predicate Valid() {
      epsilon > 0.0 && forall x: real :: x > 0.0 ==> sqrt(x) > 0.0
    }

    function Inverse(xs: seq<real>): real
      requires xs != [] && Valid()
    {
      MeanNonNegative(xs);
      1.0 / sqrt(SquareSum(xs) / (|xs| as real) + epsilon)
    }

    /** The normalised row. */
    function Norm(xs: seq<real>): (ys: seq<real>)
      requires Valid() && |xs| <= |weight|
      ensures |ys| == |xs|
    {
      seq(|xs|, p requires 0 <= p < |xs| => xs[p] * weight[p] * Inverse(xs))
    }

    /** The scale from the sum of squares. */
    method InverseOf(sumSquared: real, length: nat, ghost row: seq<real>) returns (invRms: real)
      requires Valid() && |row| == length && sumSquared == SquareSum(row)
      ensures row != [] ==> invRms == Inverse(row)
    {
      // An empty row has no mean; the kernels' quotient is then never used.
      if length == 0 {
        invRms := 0.0;
      } else {
        MeanNonNegative(row);
        invRms := 1.0 / sqrt(sumSquared / (length as real) + epsilon);
      }
    }
  }

  /** The device's square root is one. */
  ghost predicate IsRoot(sqrt: real -> real) {
    forall v: real :: v > 0.0 ==> sqrt(v) * sqrt(v) == v
  }

  lemma InverseSquared(root: real, v: real)
    requires v > 0.0 && root > 0.0 && root * root == v
    ensures (1.0 / root) * (1.0 / root) * v == 1.0
  {
    assert (1.0 / root) * root == 1.0;
    assert (1.0 / root) * (1.0 / root) * (root * root) == ((1.0 / root) * root) * ((1.0 / root) * root);
  }

  lemma MeanTimesLength(sum: real, n: real, epsilon: real)
    requires n > 0.0
    ensures (sum / n + epsilon) * n == sum + n * epsilon
  {
    assert (sum / n) * n == sum;
  }

  lemma Regroup(sum: real, square: real, whole: real, n: real)
    requires square * whole == n
    ensures (sum * square) * whole == n * sum
  {
    assert (sum * square) * whole == sum * (square * whole);
  }

  /** The factor of a row is positive, and its square times the mean square plus epsilon is 1. */
  lemma InverseLaw(rms: Rms, xs: seq<real>) returns (mean: real)
    requires rms.Valid() && IsRoot(rms.sqrt) && xs != []
    ensures rms.Inverse(xs) > 0.0 && rms.Inverse(xs) * rms.Inverse(xs) * mean == 1.0
    ensures mean * (|xs| as real) == SquareSum(xs) + (|xs| as real) * rms.epsilon
  {
    hide SquareSum;
    MeanNonNegative(xs);
    mean := SquareSum(xs) / (|xs| as real) + rms.epsilon;
    InverseSquared(rms.sqrt(mean), mean);
    MeanTimesLength(SquareSum(xs), |xs| as real, rms.epsilon);
  }

  lemma NormElements(rms: Rms, xs: seq<real>)
    requires rms.Valid() && 0 < |xs| <= |rms.weight|
    ensures forall p :: 0 <= p < |xs| ==> rms.Norm(xs)[p] == rms.weight[p] * xs[p] * rms.Inverse(xs)
  {
    hide SquareSum, Rms.Inverse;
    forall p | 0 <= p < |xs| ensures rms.Norm(xs)[p] == rms.weight[p] * xs[p] * rms.Inverse(xs) {
      assert xs[p] * rms.weight[p] == rms.weight[p] * xs[p];
    }
  }

  /** `ys` is `xs` times the weights and one positive factor, the root of the length over the sum of
      squares plus length times epsilon. */
  predicate IsRmsNorm(weight: seq<real>, epsilon: real, xs: seq<real>, ys: seq<real>, factor: real) {
    && |xs| == |ys| <= |weight| && factor > 0.0
    && (forall p :: 0 <= p < |xs| ==> ys[p] == weight[p] * xs[p] * factor)
    && factor * factor * (SquareSum(xs) + (|xs| as real) * epsilon) == (|xs| as real)
  }

  lemma FactorSquared(square: real, mean: real, n: real, whole: real)
    requires square * mean == 1.0 && mean * n == whole
    ensures square * whole == n
  {
    assert square * (mean * n) == (square * mean) * n;
  }

  /** What a normalised row is. */
  lemma NormalisedRow(rms: Rms, xs: seq<real>)
    requires rms.Valid() && IsRoot(rms.sqrt) && 0 < |xs| <= |rms.weight|
    ensures exists factor :: IsRmsNorm(rms.weight, rms.epsilon, xs, rms.Norm(xs), factor)
  {
    hide SquareSum, Rms.Inverse, Rms.Norm;
    var n, factor := |xs| as real, rms.Inverse(xs);
    var mean := InverseLaw(rms, xs);
    NormElements(rms, xs);
    FactorSquared(factor * factor, mean, n, SquareSum(xs) + n * rms.epsilon);
    assert IsRmsNorm(rms.weight, rms.epsilon, xs, rms.Norm(xs), factor);
  }

  /** So with unit weights the mean square m' of the result and the mean square m of the row satisfy
      m' (m + epsilon) = m. */
  lemma UnitMeanSquare(weight: seq<real>, epsilon: real, xs: seq<real>, ys: seq<real>, factor: real)
    requires IsRmsNorm(weight, epsilon, xs, ys, factor) && forall p :: 0 <= p < |xs| ==> weight[p] == 1.0
    ensures SquareSum(ys) * (SquareSum(xs) + (|xs| as real) * epsilon) == (|xs| as real) * SquareSum(xs)
  {
    hide SquareSum;
    forall p | 0 <= p < |xs| ensures ys[p] == xs[p] * factor {
      assert weight[p] * xs[p] == xs[p];
    }
    SquareSumScaled(xs, ys, factor, factor * factor);
    Regroup(SquareSum(xs), factor * factor, SquareSum(xs) + (|xs| as real) * epsilon, |xs| as real);
  }
}
