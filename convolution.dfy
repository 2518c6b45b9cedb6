/** Discrete-time convolution of finite real signals, as the `Convolve` routines compute it:
    the reference sum y[n] = Σ_k h[k]·x[n−k], its Toeplitz-matrix form, the output-side
    and input-side algorithms, 2-D convolution, and the first-difference and running-sum
    recurrences. */
module Convolution {
  import opened Signal

  // ---------------------------------------------------------------------------
  // The reference definition

  /** The first `m` terms of the convolution sum at output index `n`:
      h[0]·x[n] + h[1]·x[n−1] + … + h[m−1]·x[n−m+1], samples outside either signal being zero. */
  function ConvSum(x: seq<real>, h: seq<real>, n: int, m: nat): real
  {
    if m == 0 then 0.0 else ConvSum(x, h, n, m - 1) + At(h, m - 1) * At(x, n - (m - 1))
  }

  /** Output sample `n` of the full convolution of `x` with `h`. */
  function ConvAt(x: seq<real>, h: seq<real>, n: int): real
  {
    ConvSum(x, h, n, |h|)
  }

  /** The full convolution y = h * x: for non-empty signals, the |x|+|h|−1 samples
      y[n] = Σ_k h[k]·x[n−k]; an empty signal is a dimension mismatch. */
  function Convolve(x: seq<real>, h: seq<real>): (r: Result<seq<real>>)
    ensures r.Success? <==> |x| > 0 && |h| > 0
    ensures r.Success? ==> |r.value| == |x| + |h| - 1
  {
    if |x| == 0 || |h| == 0 then Failure(DimensionMismatch)
    else Success(seq(|x| + |h| - 1, n => ConvAt(x, h, n)))
  }

  // ---------------------------------------------------------------------------
  // Properties of the convolution sum

  /** Convolving the empty signal gives zero everywhere. */
  lemma {:induction false} ConvSumOfEmpty(h: seq<real>, n: int, m: nat)
    ensures ConvSum([], h, n, m) == 0.0
  {
    if m > 0 {
      ConvSumOfEmpty(h, n, m - 1);
    }
  }

  /** Appending one sample `v` to the input adds a copy of `h` scaled by `v` and shifted to
      start at index |s|: the step the input-side algorithm takes per input sample. */
  lemma {:induction false} ScatterStep(s: seq<real>, v: real, h: seq<real>, n: int, m: nat)
    ensures ConvSum(s + [v], h, n, m)
         == ConvSum(s, h, n, m) + (if 0 <= n - |s| < m then At(h, n - |s|) * v else 0.0)
  {
    if m > 0 {
      ScatterStep(s, v, h, n, m - 1);
      var i := n - (m - 1);
      var tap := At(h, m - 1);
      if i == |s| {
        assert n - |s| == m - 1 && At(h, n - |s|) == tap;
        assert At(s + [v], i) == v && At(s, i) == 0.0;
        assert tap * At(s + [v], i) == At(h, n - |s|) * v;
        assert tap * At(s, i) == 0.0;
      } else {
        assert At(s + [v], i) == At(s, i);
      }
    }
  }

  /** Scattering the first `i` input samples into the output gives, at every output index,
      the sum taken over those samples: the heart of commutativity. */
  lemma {:induction false} ScatterPrefix(x: seq<real>, h: seq<real>, n: int, i: nat)
    requires i <= |x|
    ensures ConvSum(x[..i], h, n, |h|) == ConvSum(h, x, n, i)
  {
    if i == 0 {
      assert x[..0] == [];
      ConvSumOfEmpty(h, n, |h|);
    } else {
      ScatterPrefix(x, h, n, i - 1);
      assert x[..i] == x[..i - 1] + [x[i - 1]];
      ScatterStep(x[..i - 1], x[i - 1], h, n, |h|);
    }
  }

  /** Convolution is commutative: Σ_k h[k]·x[n−k] == Σ_k x[k]·h[n−k]. */
  lemma ConvAtCommutes(x: seq<real>, h: seq<real>, n: int)
    ensures ConvAt(x, h, n) == ConvAt(h, x, n)
  {
    ScatterPrefix(x, h, n, |x|);
    assert x[..|x|] == x;
  }

  /** The full convolution does not depend on which signal is called the kernel. */
  lemma ConvolveCommutes(x: seq<real>, h: seq<real>)
    ensures Convolve(x, h) == Convolve(h, x)
  {
    if |x| > 0 && |h| > 0 {
      forall n | 0 <= n < |x| + |h| - 1
        ensures Convolve(x, h).value[n] == Convolve(h, x).value[n]
      {
        ConvAtCommutes(x, h, n);
      }
      assert Convolve(x, h).value == Convolve(h, x).value;
    }
  }

  /** Summing the last `m` kernel taps of the reversed signals, read backwards from the
      end of the output, gives the part of the forward sum that the first |b|−m taps miss. */
  lemma {:induction false} ReversedSum(a: seq<real>, b: seq<real>, n: int, m: nat)
    requires m <= |b|
    ensures ConvSum(Reverse(a), Reverse(b), |a| + |b| - 2 - n, m) + ConvSum(a, b, n, |b| - m)
         == ConvAt(a, b, n)
  {
    if m > 0 {
      ReversedSum(a, b, n, m - 1);
      AtReverse(a, |a| + |b| - 2 - n - (m - 1));
      AtReverse(b, m - 1);
    }
  }

  /** Convolving the reversed signals gives the reversed convolution. */
  lemma ConvAtReverse(a: seq<real>, b: seq<real>, n: int)
    ensures ConvAt(Reverse(a), Reverse(b), |a| + |b| - 2 - n) == ConvAt(a, b, n)
  {
    ReversedSum(a, b, n, |b|);
  }

  /** Output sample `n` of a convolution with the unit impulse [1] is input sample `n`. */
  lemma ConvAtImpulse(x: seq<real>, n: int)
    ensures ConvAt(x, [1.0], n) == At(x, n)
  {
    assert ConvSum(x, [1.0], n, 1) == ConvSum(x, [1.0], n, 0) + At([1.0], 0) * At(x, n);
  }

  /** The unit impulse is the identity of convolution. */
  lemma ConvolveImpulse(x: seq<real>)
    requires |x| > 0
    ensures Convolve(x, [1.0]) == Success(x)
  {
    forall n | 0 <= n < |x|
      ensures Convolve(x, [1.0]).value[n] == x[n]
    {
      ConvAtImpulse(x, n);
    }
    assert Convolve(x, [1.0]).value == x;
  }

  // ---------------------------------------------------------------------------
  // conv1d: the Toeplitz-matrix product

  /** The matrix whose entry (i, j) is h[i−j] (zero outside h), as
      `toeplitz(first column, first row)` builds it: its first column is h padded with
      zeros, its first row is h[0] followed by zeros, and it is constant along every diagonal. */
  function Toeplitz(h: seq<real>, rows: nat, cols: nat): (t: seq<seq<real>>)
    ensures |t| == rows && forall i :: 0 <= i < rows ==> |t[i]| == cols
    ensures forall i :: 0 <= i < rows && 0 < cols ==> t[i][0] == At(h, i)
    ensures forall j :: 0 < j < cols && 0 < rows ==> t[0][j] == 0.0
    ensures forall i, j, i', j' ::
              0 <= i < rows && 0 <= j < cols && 0 <= i' < rows && 0 <= j' < cols && i - j == i' - j'
              ==> t[i][j] == t[i'][j']
  {
    seq(rows, i => seq(cols, j => At(h, i - j)))
  }

  /** Inner product Σ_j a[j]·b[j]. */
  function Dot(a: seq<real>, b: seq<real>): real
    requires |a| == |b|
  {
    if |a| == 0 then 0.0 else Dot(a[..|a| - 1], b[..|b| - 1]) + a[|a| - 1] * b[|b| - 1]
  }

  /** Matrix-vector product: entry `i` is the inner product of row `i` with `x`. */
  function MatVec(t: seq<seq<real>>, x: seq<real>): (y: seq<real>)
    requires forall i :: 0 <= i < |t| ==> |t[i]| == |x|
    ensures |y| == |t|
  {
    seq(|t|, i requires 0 <= i < |t| => Dot(t[i], x))
  }

  /** conv1d: multiply the (|x|+|h|−1)×|x| Toeplitz matrix of `h` by `x`. */
  function Conv1d(x: seq<real>, h: seq<real>): (r: Result<seq<real>>)
    ensures r.Success? <==> |x| > 0 && |h| > 0
    ensures r.Success? ==> |r.value| == |x| + |h| - 1
  {
    if |x| == 0 || |h| == 0 then Failure(DimensionMismatch)
    else Success(MatVec(Toeplitz(h, |x| + |h| - 1, |x|), x))
  }

  /** The first `i` terms of row `n` of the Toeplitz product sum x[j]·h[n−j] over j < i. */
  lemma {:induction false} ToeplitzRowDot(x: seq<real>, h: seq<real>, n: int, i: nat)
    requires i <= |x|
    ensures var row := seq(|x|, j => At(h, n - j));
            Dot(row[..i], x[..i]) == ConvSum(h, x, n, i)
  {
    var row := seq(|x|, j => At(h, n - j));
    if i > 0 {
      ToeplitzRowDot(x, h, n, i - 1);
      assert row[..i][..i - 1] == row[..i - 1];
      assert x[..i][..i - 1] == x[..i - 1];
    }
  }

  /** The Toeplitz product is exactly the convolution sum. */
  lemma Conv1dIsConvolution(x: seq<real>, h: seq<real>)
    ensures Conv1d(x, h) == Convolve(x, h)
  {
    if |x| > 0 && |h| > 0 {
      var t := Toeplitz(h, |x| + |h| - 1, |x|);
      forall n | 0 <= n < |x| + |h| - 1
        ensures Dot(t[n], x) == ConvAt(x, h, n)
      {
        ToeplitzRowDot(x, h, n, |x|);
        assert t[n][..|x|] == t[n] && x[..|x|] == x;
        ConvAtCommutes(x, h, n);
      }
      assert Conv1d(x, h).value == Convolve(x, h).value;
    }
  }

  // ---------------------------------------------------------------------------
  // The output-side and input-side algorithms

  /** Output-side algorithm: each output sample is accumulated from every pair (k, n−k)
      that falls inside both signals. */
  method ConvolveOutputSide(x: seq<real>, h: seq<real>) returns (r: Result<seq<real>>)
    ensures r == Convolve(x, h)
  {
    if |x| == 0 || |h| == 0 {
      return Failure(DimensionMismatch);
    }
    var y := new real[|x| + |h| - 1];
    var n := 0;
    while n < y.Length
      invariant 0 <= n <= y.Length
      invariant forall i :: 0 <= i < n ==> y[i] == ConvAt(x, h, i)
    {
      var acc := 0.0;
      var k := 0;
      while k < |h|
        invariant 0 <= k <= |h|
        invariant acc == ConvSum(x, h, n, k)
      {
        if 0 <= n - k < |x| {
          acc := acc + h[k] * x[n - k];
        }
        k := k + 1;
      }
      y[n] := acc;
      n := n + 1;
    }
    assert y[..] == Convolve(x, h).value;
    r := Success(y[..]);
  }

  /** Input-side algorithm: each input sample scatter-adds a scaled, shifted copy of `h`
      into an accumulator that starts at zero. */
  method ConvolveInputSide(x: seq<real>, h: seq<real>) returns (r: Result<seq<real>>)
    ensures r == Convolve(x, h)
  {
    if |x| == 0 || |h| == 0 {
      return Failure(DimensionMismatch);
    }
    var y := new real[|x| + |h| - 1](_ => 0.0);
    forall n | 0 <= n < y.Length
      ensures y[n] == ConvAt(x[..0], h, n)
    {
      assert x[..0] == [];
      ConvSumOfEmpty(h, n, |h|);
    }
    var i := 0;
    while i < |x|
      invariant 0 <= i <= |x|
      invariant forall n :: 0 <= n < y.Length ==> y[n] == ConvAt(x[..i], h, n)
    {
      var k := 0;
      while k < |h|
        invariant 0 <= k <= |h|
        invariant forall n :: 0 <= n < y.Length ==>
          y[n] == ConvAt(x[..i], h, n) + (if i <= n < i + k then h[n - i] * x[i] else 0.0)
      {
        y[i + k] := y[i + k] + x[i] * h[k];
        k := k + 1;
      }
      forall n | 0 <= n < y.Length
        ensures y[n] == ConvAt(x[..i + 1], h, n)
      {
        assert x[..i + 1] == x[..i] + [x[i]];
        ScatterStep(x[..i], x[i], h, n, |h|);
      }
      i := i + 1;
    }
    assert x[..i] == x;
    assert y[..] == Convolve(x, h).value;
    r := Success(y[..]);
  }

  // ---------------------------------------------------------------------------
  // conv2d

  /** Every row has the length of the first: the shape of a numpy matrix. */
  predicate IsRectangular(m: seq<seq<real>>)
  {
    forall r :: 0 <= r < |m| ==> |m[r]| == |m[0]|
  }

  /** Row `r` of a matrix, with rows outside the matrix reading as empty (all zero). */
  function RowAt(m: seq<seq<real>>, r: int): seq<real>
  {
    if 0 <= r < |m| then m[r] else []
  }

  /** The contribution of the first `p` kernel rows to output pixel (a, b):
      Σ_{i<p} Σ_j kernel[i][j]·image[a−i][b−j], pixels outside either matrix being zero. */
  function Conv2Sum(image: seq<seq<real>>, kernel: seq<seq<real>>, a: int, b: int, p: nat): real
  {
    if p == 0 then 0.0
    else Conv2Sum(image, kernel, a, b, p - 1) + ConvAt(RowAt(image, a - (p - 1)), RowAt(kernel, p - 1), b)
  }

  /** conv2d: the full 2-D convolution, of shape (rows + kernel rows − 1, cols + kernel cols − 1). */
  function Conv2d(image: seq<seq<real>>, kernel: seq<seq<real>>): (r: Result<seq<seq<real>>>)
    requires IsRectangular(image) && IsRectangular(kernel)
    ensures r.Success? <==> |image| > 0 && |image[0]| > 0 && |kernel| > 0 && |kernel[0]| > 0
    ensures r.Success? ==> |r.value| == |image| + |kernel| - 1 && IsRectangular(r.value)
                           && |r.value[0]| == |image[0]| + |kernel[0]| - 1
  {
    if |image| == 0 || |image[0]| == 0 || |kernel| == 0 || |kernel[0]| == 0 then Failure(DimensionMismatch)
    else
      Success(seq(|image| + |kernel| - 1, a =>
                seq(|image[0]| + |kernel[0]| - 1, b => Conv2Sum(image, kernel, a, b, |kernel|))))
  }

  /** Convolving an image with the 1×1 kernel [[1]] returns the image. */
  lemma Conv2dIdentity(image: seq<seq<real>>)
    requires IsRectangular(image) && |image| > 0 && |image[0]| > 0
    ensures Conv2d(image, [[1.0]]) == Success(image)
  {
    var y := Conv2d(image, [[1.0]]).value;
    forall a, b | 0 <= a < |image| && 0 <= b < |image[0]|
      ensures y[a][b] == image[a][b]
    {
      assert Conv2Sum(image, [[1.0]], a, b, 1)
          == Conv2Sum(image, [[1.0]], a, b, 0) + ConvAt(image[a], [1.0], b);
      ConvAtImpulse(image[a], b);
    }
    forall a | 0 <= a < |image|
      ensures y[a] == image[a]
    {
      assert |y[a]| == |image[a]|;
    }
    assert y == image;
  }

  /** On a one-row image and a one-row kernel, conv2d is 1-D convolution. */
  lemma Conv2dOneRow(x: seq<real>, h: seq<real>)
    requires |x| > 0 && |h| > 0
    ensures Conv2d([x], [h]) == Success([Convolve(x, h).value])
  {
    var y := Conv2d([x], [h]).value;
    forall b | 0 <= b < |x| + |h| - 1
      ensures y[0][b] == Convolve(x, h).value[b]
    {
      assert Conv2Sum([x], [h], 0, b, 1) == Conv2Sum([x], [h], 0, b, 0) + ConvAt(x, h, b);
    }
    assert y[0] == Convolve(x, h).value;
    assert y == [Convolve(x, h).value];
  }

  // ---------------------------------------------------------------------------
  // first_difference and running_sum

  /** first_difference: y[n] = x[n] − x[n−1], with x[−1] taken as zero. */
  function FirstDifference(x: seq<real>): (y: seq<real>)
    ensures |y| == |x|
  {
    seq(|x|, n requires 0 <= n < |x| => x[n] - At(x, n - 1))
  }

  /** running_sum: y[n] = x[n] + y[n−1], with y[−1] taken as zero, computed sample by sample. */
  function RunningSum(x: seq<real>): (y: seq<real>)
    ensures |y| == |x|
  {
    if |x| == 0 then []
    else
      var p := RunningSum(x[..|x| - 1]);
      p + [At(p, |x| - 2) + x[|x| - 1]]
  }

  /** x[0] + … + x[k−1]. */
  function PrefixSum(x: seq<real>, k: nat): real
    requires k <= |x|
  {
    if k == 0 then 0.0 else PrefixSum(x, k - 1) + x[k - 1]
  }

  /** A prefix sum only looks at the prefix it sums. */
  lemma {:induction false} PrefixSumOfPrefix(x: seq<real>, m: nat, k: nat)
    requires k <= m <= |x|
    ensures PrefixSum(x[..m], k) == PrefixSum(x, k)
  {
    if k > 0 {
      PrefixSumOfPrefix(x, m, k - 1);
    }
  }

  /** The running sum holds, at each index, the sum of every sample up to it. */
  lemma {:induction false} RunningSumIsPrefixSum(x: seq<real>)
    ensures forall n :: 0 <= n < |x| ==> RunningSum(x)[n] == PrefixSum(x, n + 1)
  {
    if |x| > 0 {
      var x' := x[..|x| - 1];
      RunningSumIsPrefixSum(x');
      forall k | 1 <= k <= |x'|
        ensures PrefixSum(x', k) == PrefixSum(x, k)
      {
        PrefixSumOfPrefix(x, |x'|, k);
      }
      if |x'| > 0 {
        PrefixSumOfPrefix(x, |x'|, |x'|);
      }
    }
  }

  /** The running sum of a prefix is the prefix of the running sum: sample n depends only
      on samples 0..n, so the recurrence can run left to right. */
  lemma {:induction false} RunningSumPrefix(x: seq<real>, i: nat)
    requires i <= |x|
    ensures RunningSum(x[..i]) == RunningSum(x)[..i]
  {
    RunningSumIsPrefixSum(x);
    RunningSumIsPrefixSum(x[..i]);
    forall n | 0 <= n < i
      ensures RunningSum(x[..i])[n] == RunningSum(x)[n]
    {
      PrefixSumOfPrefix(x, i, n + 1);
    }
    assert |RunningSum(x[..i])| == |RunningSum(x)[..i]| == i;
  }

  /** Every sample of the running sum satisfies the recurrence y[n] = x[n] + y[n−1], y[−1] = 0. */
  lemma RunningSumRecurrence(x: seq<real>, n: nat)
    requires n < |x|
    ensures RunningSum(x)[n] == x[n] + At(RunningSum(x), n - 1)
  {
    RunningSumIsPrefixSum(x);
  }

  /** The first difference undoes the running sum. */
  lemma FirstDifferenceOfRunningSum(x: seq<real>)
    ensures FirstDifference(RunningSum(x)) == x
  {
    RunningSumIsPrefixSum(x);
  }

  /** The prefix sums of a first difference telescope to a single sample. */
  lemma {:induction false} PrefixSumOfFirstDifference(x: seq<real>, k: nat)
    requires k <= |x|
    ensures PrefixSum(FirstDifference(x), k) == At(x, k - 1)
  {
    if k > 0 {
      PrefixSumOfFirstDifference(x, k - 1);
    }
  }

  /** The running sum undoes the first difference. */
  lemma RunningSumOfFirstDifference(x: seq<real>)
    ensures RunningSum(FirstDifference(x)) == x
  {
    var d := FirstDifference(x);
    RunningSumIsPrefixSum(d);
    forall n | 0 <= n < |x|
      ensures RunningSum(d)[n] == x[n]
    {
      PrefixSumOfFirstDifference(x, n + 1);
    }
  }

  /** The first difference is convolution with the kernel [1, −1], cut to the input's length. */
  lemma FirstDifferenceIsConvolution(x: seq<real>)
    requires |x| > 0
    ensures Convolve(x, [1.0, -1.0]).value[..|x|] == FirstDifference(x)
  {
    var y := Convolve(x, [1.0, -1.0]).value;
    forall n | 0 <= n < |x|
      ensures y[n] == FirstDifference(x)[n]
    {
      assert ConvSum(x, [1.0, -1.0], n, 2) == ConvSum(x, [1.0, -1.0], n, 1) + At([1.0, -1.0], 1) * At(x, n - 1);
      assert ConvSum(x, [1.0, -1.0], n, 1) == ConvSum(x, [1.0, -1.0], n, 0) + At([1.0, -1.0], 0) * At(x, n);
    }
  }
}
