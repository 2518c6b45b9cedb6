/** Cross- and auto-correlation as convolution with a time-reversed signal, their
    normalisations, and the `Correlation` object whose `delay()` reads the correlation
    that its last `correlation()` call stored. */
module Correlation {
  import opened Signal
  import opened Convolution

  /** The convolution routine a correlation is computed with: `fast` (the Toeplitz
      product), `input` (input-side) or `output` (output-side). */
  datatype Algorithm = Fast | Input | Output

  /** The algorithm used when the caller names none. */
  const DefaultAlgorithm: Algorithm := Output

  /** Convolve with the routine `algorithm` selects; every routine gives the same result. */
  method ConvolveWith(algorithm: Algorithm, x: seq<real>, h: seq<real>) returns (r: Result<seq<real>>)
    ensures r == Convolve(x, h)
  {
    match algorithm
    case Fast =>
      Conv1dIsConvolution(x, h);
      r := Conv1d(x, h);
    case Input =>
      r := ConvolveInputSide(x, h);
    case Output =>
      r := ConvolveOutputSide(x, h);
  }

  // ---------------------------------------------------------------------------
  // Correlation and its lagged-product form

  /** correlation(x, h): r_xh = x * h[−n], the convolution of `x` with `h` reversed. */
  function CrossCorrelation(x: seq<real>, h: seq<real>): (r: Result<seq<real>>)
    ensures r.Success? <==> |x| > 0 && |h| > 0
    ensures r.Success? ==> |r.value| == |x| + |h| - 1
  {
    Convolve(x, Reverse(h))
  }

  /** auto_corr(x): the correlation of `x` with itself. */
  function AutoCorrelation(x: seq<real>): (r: Result<seq<real>>)
    ensures r.Success? <==> |x| > 0
    ensures r.Success? ==> |r.value| == 2 * |x| - 1
  {
    CrossCorrelation(x, x)
  }

  /** The first `m` terms of the correlation at lag `lag`: Σ_{k<m} x[k]·h[k−lag]. */
  function LagSum(x: seq<real>, h: seq<real>, lag: int, m: nat): real
  {
    if m == 0 then 0.0 else LagSum(x, h, lag, m - 1) + At(x, m - 1) * At(h, m - 1 - lag)
  }

  /** The correlation of `x` with `h` at lag `lag`: Σ_k x[k]·h[k−lag]. */
  function LagProduct(x: seq<real>, h: seq<real>, lag: int): real
  {
    LagSum(x, h, lag, |x|)
  }

  lemma {:induction false} ReversedKernelSum(x: seq<real>, h: seq<real>, n: int, m: nat)
    ensures ConvSum(Reverse(h), x, n, m) == LagSum(x, h, n - (|h| - 1), m)
  {
    if m > 0 {
      ReversedKernelSum(x, h, n, m - 1);
      AtReverse(h, n - (m - 1));
      var a, b := At(x, m - 1), At(h, m - 1 - (n - (|h| - 1)));
      assert At(Reverse(h), n - (m - 1)) == b;
      assert ConvSum(Reverse(h), x, n, m) == ConvSum(Reverse(h), x, n, m - 1) + a * b;
      assert LagSum(x, h, n - (|h| - 1), m) == LagSum(x, h, n - (|h| - 1), m - 1) + a * b;
    }
  }

  /** Sample `n` of the correlation is the lagged product at lag n − (|h| − 1): the
      output index |h| − 1 is lag 0, earlier indices are negative lags. */
  lemma CorrelationIsLagProduct(x: seq<real>, h: seq<real>, n: int)
    requires |x| > 0 && |h| > 0 && 0 <= n < |x| + |h| - 1
    ensures CrossCorrelation(x, h).value[n] == LagProduct(x, h, n - (|h| - 1))
  {
    ConvAtCommutes(x, Reverse(h), n);
    ReversedKernelSum(x, h, n, |x|);
  }

  /** The auto-correlation is symmetric about lag 0: r[k] == r[2(|x|−1)−k]. */
  lemma AutoCorrelationSymmetric(x: seq<real>, k: int)
    requires |x| > 0 && 0 <= k < 2 * |x| - 1
    ensures AutoCorrelation(x).value[k] == AutoCorrelation(x).value[2 * (|x| - 1) - k]
  {
    ConvAtReverse(Reverse(x), x, k);
    ReverseReverse(x);
    ConvAtCommutes(x, Reverse(x), k);
  }

  // ---------------------------------------------------------------------------
  // Energy, and the peak of the auto-correlation at lag 0

  /** x[0]² + … + x[k−1]², indices past the end of `x` adding nothing. */
  function Energy(x: seq<real>, k: int): real
    decreases k
  {
    if k <= 0 then 0.0
    else if k > |x| then Energy(x, |x|)
    else Energy(x, k - 1) + Square(x[k - 1])
  }

  lemma EnergyStep(x: seq<real>, k: int)
    ensures Energy(x, k + 1) == Energy(x, k) + Square(At(x, k))
  {
  }

  lemma {:induction false} EnergyNonNegative(x: seq<real>, k: int)
    ensures Energy(x, k) >= 0.0
    decreases k
  {
    if k > |x| {
      EnergyNonNegative(x, |x|);
    } else if k > 0 {
      EnergyNonNegative(x, k - 1);
    }
  }

  /** No partial energy exceeds the energy of the whole signal. */
  lemma {:induction false} EnergyAtMostTotal(x: seq<real>, k: int)
    ensures Energy(x, k) <= Energy(x, |x|)
    decreases |x| - k
  {
    if k < |x| {
      EnergyAtMostTotal(x, k + 1);
      EnergyStep(x, k);
    }
  }

  /** Lag 0 of the correlation of a signal with itself is its energy. */
  lemma {:induction false} LagZeroIsEnergy(x: seq<real>, m: nat)
    ensures LagSum(x, x, 0, m) == Energy(x, m)
  {
    if m > 0 {
      LagZeroIsEnergy(x, m - 1);
      EnergyStep(x, m - 1);
    }
  }

  /** Σ_{j<m} x[j−lag]²: the energy of `x` seen through a window shifted by `lag`. */
  function ShiftedEnergy(x: seq<real>, lag: int, m: nat): real
  {
    if m == 0 then 0.0 else ShiftedEnergy(x, lag, m - 1) + Square(At(x, m - 1 - lag))
  }

  lemma {:induction false} ShiftedEnergyIsWindow(x: seq<real>, lag: int, m: nat)
    ensures ShiftedEnergy(x, lag, m) == Energy(x, m - lag) - Energy(x, -lag)
  {
    if m > 0 {
      ShiftedEnergyIsWindow(x, lag, m - 1);
      EnergyStep(x, m - 1 - lag);
    }
  }

  /** 2·Σ x[j]·x[j−lag] ≤ Σ x[j]² + Σ x[j−lag]², term by term from 2ab ≤ a² + b². */
  lemma {:induction false} CrossTermBound(x: seq<real>, lag: int, m: nat)
    ensures 2.0 * LagSum(x, x, lag, m) <= Energy(x, m) + ShiftedEnergy(x, lag, m)
  {
    if m > 0 {
      CrossTermBound(x, lag, m - 1);
      EnergyStep(x, m - 1);
      TwoProductBound(At(x, m - 1), At(x, m - 1 - lag));
    }
  }

  /** The bound of CrossTermBound is strict once the window covers a sample `x[q] ≠ 0` whose
      partner `x[q−lag]` is zero. */
  lemma {:induction false} CrossTermStrict(x: seq<real>, lag: int, m: nat, q: nat)
    requires q < m && q < |x| && x[q] != 0.0 && At(x, q - lag) == 0.0
    ensures 2.0 * LagSum(x, x, lag, m) < Energy(x, m) + ShiftedEnergy(x, lag, m)
  {
    EnergyStep(x, m - 1);
    if m - 1 == q {
      CrossTermBound(x, lag, m - 1);
      TwoProductStrict(At(x, q), At(x, q - lag));
    } else {
      CrossTermStrict(x, lag, m - 1, q);
      TwoProductBound(At(x, m - 1), At(x, m - 1 - lag));
    }
  }

  /** a². Kept as a function so that sums of squares stay linear for the solver. */
  function Square(a: real): real
  {
    a * a
  }

  lemma SquarePositive(a: real)
    ensures Square(a) >= 0.0
    ensures a != 0.0 ==> Square(a) > 0.0
  {
    var q := Square(a);
    if a < 0.0 {
      ProductPositive(-a, -a, q);
    } else if a > 0.0 {
      ProductPositive(a, a, q);
    }
  }

  lemma TwoProductBound(a: real, b: real)
    ensures 2.0 * (a * b) <= Square(a) + Square(b)
  {
    SquarePositive(a - b);
    assert (a - b) * (a - b) == a * a - 2.0 * (a * b) + b * b;
  }

  lemma TwoProductStrict(a: real, b: real)
    requires a != b
    ensures 2.0 * (a * b) < Square(a) + Square(b)
  {
    SquarePositive(a - b);
    assert (a - b) * (a - b) == a * a - 2.0 * (a * b) + b * b;
  }

  /** The auto-correlation peaks at lag 0 (index |x| − 1), where it equals the energy of `x`. */
  lemma AutoCorrelationPeak(x: seq<real>)
    requires |x| > 0
    ensures var r := AutoCorrelation(x).value;
            r[|x| - 1] == Energy(x, |x|) && MaxOf(r) == Energy(x, |x|)
            && forall k :: 0 <= k < |r| ==> r[k] <= r[|x| - 1]
  {
    var r := AutoCorrelation(x).value;
    CorrelationIsLagProduct(x, x, |x| - 1);
    LagZeroIsEnergy(x, |x|);
    forall k | 0 <= k < |r|
      ensures r[k] <= Energy(x, |x|)
    {
      var lag := k - (|x| - 1);
      CorrelationIsLagProduct(x, x, k);
      CrossTermBound(x, lag, |x|);
      ShiftedEnergyIsWindow(x, lag, |x|);
      EnergyAtMostTotal(x, |x| - lag);
      EnergyNonNegative(x, -lag);
    }
    var i :| 0 <= i < |r| && r[i] == MaxOf(r);
  }

  /** For a signal with a sample that is not zero, every lag other than 0 gives strictly less than
      the energy, so the first maximum of the auto-correlation is at index |x| − 1 (lag 0). */
  lemma AutoCorrelationArgMax(x: seq<real>)
    requires HasNonZero(x)
    ensures var r := AutoCorrelation(x).value;
            (forall k :: 0 <= k < |r| && k != |x| - 1 ==> r[k] < r[|x| - 1])
            && ArgMax(r) == |x| - 1
  {
    var r := AutoCorrelation(x).value;
    AutoCorrelationPeak(x);
    forall k | 0 <= k < |r| && k != |x| - 1
      ensures r[k] < r[|x| - 1]
    {
      if k < |x| - 1 {
        NegativeLagBelowPeak(x, k);
      } else {
        AutoCorrelationSymmetric(x, k);
        NegativeLagBelowPeak(x, 2 * (|x| - 1) - k);
      }
    }
    ArgMaxUnique(r, |x| - 1);
  }

  /** A negative lag of the auto-correlation of a signal that is not all zeros stays below the
      energy: the last sample that is not zero meets only zeros. */
  lemma NegativeLagBelowPeak(x: seq<real>, k: nat)
    requires HasNonZero(x) && k < |x| - 1
    ensures AutoCorrelation(x).value[k] < Energy(x, |x|)
  {
    var q := LastNonZero(x);
    var lag := k - (|x| - 1);
    assert At(x, q - lag) == 0.0;
    CorrelationIsLagProduct(x, x, k);
    CrossTermStrict(x, lag, |x|, q);
    ShiftedEnergyIsWindow(x, lag, |x|);
    EnergyNonNegative(x, -lag);
  }

  /** A signal of zeros has an auto-correlation of zeros, whose first maximum is at index 0. */
  lemma AutoCorrelationOfZeroSignal(x: seq<real>)
    requires |x| > 0 && !HasNonZero(x)
    ensures var r := AutoCorrelation(x).value;
            (forall k :: 0 <= k < |r| ==> r[k] == 0.0) && ArgMax(r) == 0
  {
    var r := AutoCorrelation(x).value;
    forall k | 0 <= k < |r|
      ensures r[k] == 0.0
    {
      CorrelationIsLagProduct(x, x, k);
      LagSumOfZeroSignal(x, x, k - (|x| - 1), |x|);
    }
    ArgMaxUnique(r, 0);
  }

  lemma {:induction false} LagSumOfZeroSignal(x: seq<real>, h: seq<real>, lag: int, m: nat)
    requires !HasNonZero(x)
    ensures LagSum(x, h, lag, m) == 0.0
  {
    if m > 0 {
      LagSumOfZeroSignal(x, h, lag, m - 1);
      assert At(x, m - 1) == 0.0;
    }
  }

  /** A signal has positive energy exactly when some sample is not zero. */
  lemma EnergyPositive(x: seq<real>)
    ensures Energy(x, |x|) > 0.0 <==> HasNonZero(x)
  {
    if HasNonZero(x) {
      var i :| 0 <= i < |x| && x[i] != 0.0;
      EnergyNonNegative(x, i);
      EnergyAtMostTotal(x, i + 1);
      EnergyStep(x, i);
      SquarePositive(At(x, i));
    } else {
      EnergyOfZeroSignal(x, |x|);
    }
  }

  lemma {:induction false} EnergyOfZeroSignal(x: seq<real>, k: int)
    requires !HasNonZero(x)
    ensures Energy(x, k) == 0.0
    decreases k
  {
    if k > |x| {
      EnergyOfZeroSignal(x, |x|);
    } else if k > 0 {
      EnergyOfZeroSignal(x, k - 1);
      assert x[k - 1] == 0.0;
    }
  }

  // ---------------------------------------------------------------------------
  // Normalisation

  /** norm_auto_corr(x): r_xx / max(r_xx); a zero maximum is a division by zero. */
  function NormalizedAutoCorrelation(x: seq<real>): (r: Result<seq<real>>)
    ensures r.Success? ==> |r.value| == 2 * |x| - 1
  {
    if |x| == 0 then Failure(DimensionMismatch)
    else
      var rxx := AutoCorrelation(x).value;
      var m := MaxOf(rxx);
      if m == 0.0 then Failure(DivisionByZero) else Success(Divide(rxx, m))
  }

  /** The normalised auto-correlation exists exactly for signals that are not all zero;
      an all-zero signal is a division by zero. */
  lemma NormalizedAutoCorrelationDefined(x: seq<real>)
    ensures NormalizedAutoCorrelation(x).Success? <==> HasNonZero(x)
    ensures |x| > 0 && !HasNonZero(x) ==> NormalizedAutoCorrelation(x) == Failure(DivisionByZero)
  {
    if |x| > 0 {
      AutoCorrelationPeak(x);
      EnergyPositive(x);
      EnergyNonNegative(x, |x|);
    }
  }

  /** The normalised auto-correlation peaks at exactly 1, at lag 0. */
  lemma NormalizedAutoCorrelationPeak(x: seq<real>)
    requires HasNonZero(x)
    ensures NormalizedAutoCorrelation(x).Success?
    ensures var y := NormalizedAutoCorrelation(x).value;
            MaxOf(y) == 1.0 && y[|x| - 1] == 1.0
  {
    var rxx := AutoCorrelation(x).value;
    var m := MaxOf(rxx);
    AutoCorrelationPeak(x);
    EnergyPositive(x);
    assert m > 0.0;
    var y := Divide(rxx, m);
    assert NormalizedAutoCorrelation(x) == Success(y);
    MaxOfDivide(rxx, m);
    assert y[|x| - 1] == m / m;
    DivideSelf(m);
  }

  lemma DivideSelf(m: real)
    requires m != 0.0
    ensures m / m == 1.0
  {
  }

  /** What norm_correlation demands of the square root it uses: positive arguments
      have positive roots. */
  ghost predicate PositiveRoot(sqrt: real -> real)
  {
    forall v :: v > 0.0 ==> sqrt(v) > 0.0
  }

  /** The maximum of an auto-correlation is never negative. */
  lemma AutoCorrelationMaxNonNegative(x: seq<real>)
    requires |x| > 0
    ensures MaxOf(AutoCorrelation(x).value) >= 0.0
  {
    AutoCorrelationPeak(x);
    EnergyNonNegative(x, |x|);
  }

  /** norm_correlation(x, h): r_xh / sqrt(max(r_xx)·max(r_hh)); a zero maximum is a
      division by zero. The square root is a parameter. */
  function NormalizedCorrelation(x: seq<real>, h: seq<real>, sqrt: real -> real): (r: Result<seq<real>>)
    requires PositiveRoot(sqrt)
    ensures r.Success? ==> |r.value| == |x| + |h| - 1
  {
    if |x| == 0 || |h| == 0 then Failure(DimensionMismatch)
    else
      var mx := MaxOf(AutoCorrelation(x).value);
      var mh := MaxOf(AutoCorrelation(h).value);
      if mx == 0.0 || mh == 0.0 then Failure(DivisionByZero)
      else
        MaximaProductPositive(x, h);
        Success(Divide(CrossCorrelation(x, h).value, sqrt(Product(mx, mh))))
  }

  /** The normalised correlation exists exactly when neither signal is all zero. */
  lemma NormalizedCorrelationDefined(x: seq<real>, h: seq<real>, sqrt: real -> real)
    requires PositiveRoot(sqrt)
    ensures NormalizedCorrelation(x, h, sqrt).Success? <==> HasNonZero(x) && HasNonZero(h)
  {
    if |x| > 0 && |h| > 0 {
      AutoCorrelationPeak(x);
      EnergyPositive(x);
      EnergyNonNegative(x, |x|);
      AutoCorrelationPeak(h);
      EnergyPositive(h);
      EnergyNonNegative(h, |h|);
    }
  }

  /** Normalisation divides by one positive scalar, so it keeps the sign of every sample
      and the position of the first maximum: the lag read from the normalised correlation
      is the lag of the correlation itself. */
  lemma NormalizedCorrelationKeepsShape(x: seq<real>, h: seq<real>, sqrt: real -> real)
    requires PositiveRoot(sqrt)
    requires NormalizedCorrelation(x, h, sqrt).Success?
    ensures var r, y := CrossCorrelation(x, h).value, NormalizedCorrelation(x, h, sqrt).value;
            ArgMax(y) == ArgMax(r)
            && forall n :: 0 <= n < |r| ==> (y[n] > 0.0 <==> r[n] > 0.0) && (y[n] == 0.0 <==> r[n] == 0.0)
  {
    var r := CrossCorrelation(x, h).value;
    var d := sqrt(Product(MaxOf(AutoCorrelation(x).value), MaxOf(AutoCorrelation(h).value)));
    NormalizedCorrelationUnfold(x, h, sqrt);
    assert NormalizedCorrelation(x, h, sqrt).value == Divide(r, d);
    ArgMaxDivide(r, d);
    forall n | 0 <= n < |r|
      ensures (r[n] / d > 0.0 <==> r[n] > 0.0) && (r[n] / d == 0.0 <==> r[n] == 0.0)
    {
      DivideKeepsSign(r[n], d);
    }
  }

  /** The normalised correlation of two signals that are not all zero, spelled out. */
  lemma NormalizedCorrelationUnfold(x: seq<real>, h: seq<real>, sqrt: real -> real)
    requires PositiveRoot(sqrt) && |x| > 0 && |h| > 0
    requires MaxOf(AutoCorrelation(x).value) != 0.0 && MaxOf(AutoCorrelation(h).value) != 0.0
    ensures Product(MaxOf(AutoCorrelation(x).value), MaxOf(AutoCorrelation(h).value)) > 0.0
    ensures NormalizedCorrelation(x, h, sqrt)
            == Success(Divide(CrossCorrelation(x, h).value,
                              sqrt(Product(MaxOf(AutoCorrelation(x).value), MaxOf(AutoCorrelation(h).value)))))
  {
    MaximaProductPositive(x, h);
  }

  /** Two auto-correlation maxima that are not zero have a positive product. */
  lemma MaximaProductPositive(x: seq<real>, h: seq<real>)
    requires |x| > 0 && |h| > 0
    requires MaxOf(AutoCorrelation(x).value) != 0.0 && MaxOf(AutoCorrelation(h).value) != 0.0
    ensures Product(MaxOf(AutoCorrelation(x).value), MaxOf(AutoCorrelation(h).value)) > 0.0
  {
    var mx, mh := MaxOf(AutoCorrelation(x).value), MaxOf(AutoCorrelation(h).value);
    AutoCorrelationMaxNonNegative(x);
    AutoCorrelationMaxNonNegative(h);
    ProductPositive(mx, mh, Product(mx, mh));
  }

  /** Correlating a signal with itself and normalising by an exact square root is the
      normalised auto-correlation: a perfect match peaks at 1. */
  lemma NormalizedSelfCorrelation(x: seq<real>, sqrt: real -> real)
    requires IsSquareRoot(sqrt)
    ensures NormalizedCorrelation(x, x, sqrt) == NormalizedAutoCorrelation(x)
  {
    if |x| > 0 {
      AutoCorrelationMaxNonNegative(x);
      var m := MaxOf(AutoCorrelation(x).value);
      RootOfSquare(sqrt, m);
      if m != 0.0 {
        assert NormalizedCorrelation(x, x, sqrt).value == Divide(CrossCorrelation(x, x).value, m);
      }
    }
  }

  /** `sqrt` is the square root on the non-negative reals. */
  ghost predicate IsSquareRoot(sqrt: real -> real)
  {
    PositiveRoot(sqrt) && forall v :: v >= 0.0 ==> sqrt(v) >= 0.0 && sqrt(v) * sqrt(v) == v
  }

  lemma RootOfSquare(sqrt: real -> real, m: real)
    requires IsSquareRoot(sqrt) && m >= 0.0
    ensures sqrt(Product(m, m)) == m
  {
    SquarePositive(m);
    assert Square(m) == m * m == Product(m, m);
    var s := sqrt(Product(m, m));
    assert s >= 0.0 && s * s == m * m;
    SquaresDetermineRoot(s, m);
  }

  /** Two non-negative reals with equal squares are equal. */
  lemma SquaresDetermineRoot(s: real, m: real)
    requires s >= 0.0 && m >= 0.0 && s * s == m * m
    ensures s == m
  {
    if s > m {
      ProductPositive(s - m, s + m, s * s - m * m);
    } else if s < m {
      ProductPositive(m - s, m + s, m * m - s * s);
    }
  }

  /** a·b, kept as a function so that the argument of the square root is one term. */
  function Product(a: real, b: real): real
  {
    a * b
  }

  /** The product `q` of two positive reals is positive. The product is passed in as
      `q` so that callers squaring one number can use it. */
  lemma ProductPositive(a: real, b: real, q: real)
    requires a > 0.0 && b > 0.0 && q == a * b
    ensures q > 0.0
  {
  }

  // ---------------------------------------------------------------------------
  // The correlation object

  /** The object of `Correlation`: besides computing correlations, it remembers the last
      correlation computed and the length of the signal `h` it used, which `delay()` reads. */
  class Correlator {
    var computed: bool
    var lastCorrelation: seq<real>
    var lastKernelLength: nat

    /** A stored correlation of x with h has |x| + |h| − 1 ≥ |h| ≥ 1 samples. */
    ghost predicate Valid()
      reads this
    {
      computed ==> 0 < lastKernelLength <= |lastCorrelation|
    }

    constructor ()
      ensures Valid() && !computed
    {
      computed := false;
      lastCorrelation := [];
      lastKernelLength := 0;
    }

    /** correlation(x, h, algorithm): computes r_xh with the chosen routine and stores it. */
    method Correlate(x: seq<real>, h: seq<real>, algorithm: Algorithm := DefaultAlgorithm) returns (r: Result<seq<real>>)
      requires Valid()
      modifies this
      ensures Valid()
      ensures r == CrossCorrelation(x, h)
      ensures r.Success? ==> computed && lastCorrelation == r.value && lastKernelLength == |h|
      ensures r.Failure? ==> computed == old(computed) && lastCorrelation == old(lastCorrelation)
                             && lastKernelLength == old(lastKernelLength)
    {
      r := ConvolveWith(algorithm, x, Reverse(h));
      if r.Success? {
        computed, lastCorrelation, lastKernelLength := true, r.value, |h|;
      }
    }

    /** auto_corr(x, algorithm): the correlation of `x` with itself, stored like any other. Its
        first maximum is at lag 0 unless `x` is all zeros, where it is the first sample, so the
        delay read next is 0, or |x| − 1 for a signal of zeros. */
    method AutoCorr(x: seq<real>, algorithm: Algorithm := DefaultAlgorithm) returns (r: Result<seq<real>>)
      requires Valid()
      modifies this
      ensures Valid()
      ensures r == AutoCorrelation(x)
      ensures r.Success? ==> computed && lastCorrelation == r.value && lastKernelLength == |x|
                             && ArgMax(lastCorrelation) <= lastKernelLength - 1
      ensures r.Success? && HasNonZero(x) ==> ArgMax(lastCorrelation) == lastKernelLength - 1
      ensures r.Success? && !HasNonZero(x) ==> ArgMax(lastCorrelation) == 0
      ensures r.Failure? ==> computed == old(computed) && lastCorrelation == old(lastCorrelation)
                             && lastKernelLength == old(lastKernelLength)
    {
      r := Correlate(x, x, algorithm);
      if r.Success? {
        AutoCorrelationPeak(x);
        if HasNonZero(x) {
          AutoCorrelationArgMax(x);
        } else {
          AutoCorrelationOfZeroSignal(x);
        }
      }
    }

    /** norm_correlation(x, h, algorithm): leaves the stored correlation alone. */
    method NormCorrelation(x: seq<real>, h: seq<real>, algorithm: Algorithm := DefaultAlgorithm, sqrt: real -> real)
      returns (r: Result<seq<real>>)
      requires PositiveRoot(sqrt)
      ensures r == NormalizedCorrelation(x, h, sqrt)
    {
      var rxh := ConvolveWith(algorithm, x, Reverse(h));
      if rxh.Failure? {
        return Failure(DimensionMismatch);
      }
      var rxx := ConvolveWith(algorithm, x, Reverse(x));
      var rhh := ConvolveWith(algorithm, h, Reverse(h));
      assert rxx == AutoCorrelation(x) && rhh == AutoCorrelation(h);
      var mx := MaxOf(rxx.value);
      var mh := MaxOf(rhh.value);
      if mx == 0.0 || mh == 0.0 {
        return Failure(DivisionByZero);
      }
      NormalizedCorrelationUnfold(x, h, sqrt);
      r := Success(Divide(rxh.value, sqrt(Product(mx, mh))));
    }

    /** norm_auto_corr(x, algorithm): leaves the stored correlation alone. */
    method NormAutoCorr(x: seq<real>, algorithm: Algorithm := DefaultAlgorithm) returns (r: Result<seq<real>>)
      ensures r == NormalizedAutoCorrelation(x)
    {
      var rxx := ConvolveWith(algorithm, x, Reverse(x));
      if rxx.Failure? {
        return Failure(DimensionMismatch);
      }
      var m := MaxOf(rxx.value);
      if m == 0.0 {
        return Failure(DivisionByZero);
      }
      r := Success(Divide(rxx.value, m));
    }

    /** delay(): only after a correlation has been stored. The result is the negated
        difference between the first index of the stored maximum and |h| − 1, so it is 0
        exactly when the maximum first occurs at lag 0. */
    method Delay() returns (d: int)
      requires Valid() && computed
      ensures d == (lastKernelLength - 1) - ArgMax(lastCorrelation)
      ensures d == 0 <==> (lastCorrelation[lastKernelLength - 1] == MaxOf(lastCorrelation)
                          && forall i :: 0 <= i < lastKernelLength - 1 ==> lastCorrelation[i] < MaxOf(lastCorrelation))
      ensures lastKernelLength - |lastCorrelation| <= d < lastKernelLength
    {
      var k := ArgMax(lastCorrelation);
      d := (lastKernelLength - 1) - k;
    }
  }
}
