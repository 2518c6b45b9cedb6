# Convolution, correlation and padding routines of a DSP course toolkit

This project models the signal-processing core of a DSP course repository in Dafny and proves
properties of the model:

- **Convolution** (`Common/convolution.py`): the full discrete convolution
  y[n] = Σ_k h[k]·x[n−k] of two finite signals, in three forms. The Toeplitz-matrix product
  (`conv1d`), the output-side algorithm (one accumulated sum per output sample) and the
  input-side algorithm (one scaled, shifted copy of `h` added per input sample) are proved to
  give the same result. The module also covers 2-D convolution (`conv2d`) and the first-difference
  and running-sum recurrences.
- **Correlation** (`Common/correlation.py`): correlation as convolution with a time-reversed
  signal, auto-correlation, both normalisations, and the `Correlation` object. That object
  stores the last correlation it computed, and `delay()` reads it.
- **The running-sum and first-difference program** (`main.cpp` of the running-sum exercise):
  two C loops that fill a destination buffer in place.
- **Zero padding** (`Common/auxiliary.py`): padding the shorter of two signals with zeros
  (`zero_padding`), and padding one signal to a given length (`zero_pad`).

Samples are mathematical reals. Signals are sequences. Matrices are sequences of rows. An
empty input is the error `DimensionMismatch`. Division by a zero maximum is `DivisionByZero`.
A request for an array of negative size is `NegativeDimension`.

Files: `signal.dfy` (shared definitions: errors, zero extension, reversal, division, maximum and
argmax), `convolution.dfy`, `correlation.dfy`, `running_sum.dfy`, `auxiliary.dfy`.

## Model

| member | source | states |
|---|---|---|
| Convolution.Convolve | Common/convolution.py:26-39 | The reference convolution exists exactly when both signals are non-empty and then has len(x)+len(h)−1 samples; an empty signal is a dimension mismatch |
| Convolution.Toeplitz | Common/convolution.py:10-23 | The matrix conv1d multiplies by has len(x)+len(h)−1 rows and len(x) columns, `h` down its first column, zeros along its first row after the corner, and constant diagonals |
| Convolution.Conv1d | Common/convolution.py:10-23 | conv1d (Toeplitz matrix times x) succeeds exactly for non-empty signals, with len(x)+len(h)−1 samples |
| Convolution.Conv1dIsConvolution | Common/convolution.py:10-23 | For all inputs the Toeplitz product equals the convolution sum y[n] = Σ h[k]·x[n−k] |
| Convolution.ConvolveOutputSide | Common/convolution.py:26-39 | The output-side loops (one accumulated sum per output index) return exactly the convolution |
| Convolution.ConvolveInputSide | Common/convolution.py:43-57 | The input-side loops (scatter-adding h·x[i] shifted by i into a zeroed buffer) return exactly the convolution |
| Convolution.ConvolveCommutes | Common/convolution.py:34-35 | h * x == x * h for all signals, including the error cases |
| Convolution.ConvolveImpulse | Common/convolution.py:18-19 | Convolving with the unit impulse [1] returns the input |
| Convolution.Conv2d | Common/convolution.py:60-73 | conv2d succeeds exactly for non-empty image and kernel; the output is rectangular with (rows+kernel rows−1) rows and (cols+kernel cols−1) columns |
| Convolution.Conv2dIdentity | Common/convolution.py:60-73 | Convolving an image with the 1×1 kernel [[1]] returns the image |
| Convolution.Conv2dOneRow | Common/convolution.py:60-73 | A one-row image and a one-row kernel give the one-row 1-D convolution |
| Convolution.FirstDifference | Common/convolution.py:76-90 | The first difference y[n] = x[n] − x[n−1], with x[−1] = 0, as the definition; its contract states one output per input |
| Convolution.RunningSum | Common/convolution.py:93-106 | The running sum y[n] = x[n] + y[n−1], with y[−1] = 0, as the definition; its contract states one output per input, and RunningSumRecurrence states the recurrence |
| Convolution.RunningSumIsPrefixSum | Common/convolution.py:93-106 | The recurrence y[n] = x[n] + y[n−1] with y[−1] = 0 gives y[n] = x[0] + … + x[n] |
| Convolution.RunningSumRecurrence | Common/convolution.py:95-96 | Every output of the running sum satisfies y[n] = x[n] + y[n−1], with y[−1] = 0 |
| Convolution.RunningSumPrefix | Common/convolution.py:93-106 | The running sum of the first i samples is the first i outputs of the running sum: outputs are final once written |
| Convolution.FirstDifferenceOfRunningSum | Common/convolution.py:76-106 | The first difference of the running sum is the input |
| Convolution.RunningSumOfFirstDifference | Common/convolution.py:76-106 | The running sum of the first difference is the input |
| Convolution.FirstDifferenceIsConvolution | Common/convolution.py:76-90 | The first difference y[n] = x[n] − x[n−1] is the first len(x) samples of the convolution with [1, −1] |
| Correlation.ConvolveWith | Common/correlation.py:12-29 | Whichever algorithm is chosen (`fast`, `input`, `output`), the result is the same convolution |
| Correlation.CrossCorrelation | Common/correlation.py:12-29 | r_xh = x * h[−n] exists exactly for non-empty signals and has len(x)+len(h)−1 samples |
| Correlation.CorrelationIsLagProduct | Common/correlation.py:12-29 | Sample n of r_xh is Σ_k x[k]·h[k−lag] at lag n−(len(h)−1), so index len(h)−1 is lag 0 |
| Correlation.AutoCorrelation | Common/correlation.py:32-47 | r_xx exists exactly for non-empty x and has 2·len(x)−1 samples |
| Correlation.AutoCorrelationSymmetric | Common/correlation.py:32-47 | r_xx is symmetric about lag 0: r[k] == r[2(len(x)−1)−k] |
| Correlation.AutoCorrelationPeak | Common/correlation.py:32-47 | r_xx at lag 0 (index len(x)−1) is Σ x[n]², it is the maximum of r_xx, and no sample exceeds it |
| Correlation.EnergyPositive | Common/correlation.py:32-47 | Σ x[n]² is positive exactly when some sample is not zero |
| Correlation.NormalizedAutoCorrelation | Common/correlation.py:69-85 | r_xx / max(r_xx) has 2·len(x)−1 samples when it exists |
| Correlation.NormalizedAutoCorrelationDefined | Common/correlation.py:69-85 | norm_auto_corr exists exactly for signals that are not all zero; an all-zero signal is a division by zero |
| Correlation.NormalizedAutoCorrelationPeak | Common/correlation.py:69-85 | For a signal that is not all zero the largest normalised sample is exactly 1, at lag 0 |
| Correlation.NormalizedCorrelation | Common/correlation.py:50-66 | r_xh / sqrt(max r_xx · max r_hh) has len(x)+len(h)−1 samples when it exists |
| Correlation.NormalizedCorrelationDefined | Common/correlation.py:50-66 | norm_correlation exists exactly when neither signal is all zero |
| Correlation.NormalizedCorrelationKeepsShape | Common/correlation.py:50-66 | Normalisation divides by one positive scalar: every sample keeps its sign and zeros, and the first maximum stays at the same index |
| Correlation.NormalizedSelfCorrelation | Common/correlation.py:50-85 | With an exact square root, norm_correlation(x, x) is norm_auto_corr(x) |
| Correlation.Correlator.constructor | Common/correlation.py:7-9 | A new object holds no correlation yet |
| Correlation.Correlator.Correlate | Common/correlation.py:12-29 | correlation() returns r_xh and, on success, stores it with len(h) for delay(); on failure the stored state is unchanged |
| Correlation.Correlator.AutoCorr | Common/correlation.py:32-47 | auto_corr() returns r_xx and stores it like correlation(), with len(x) as the kernel length; for a signal that is not all zeros the first maximum of the stored r_xx is at lag 0 (index len(x)−1), so delay() then gives 0; for an all-zero signal it is at index 0; on failure the stored state is unchanged |
| Correlation.AutoCorrelationArgMax | Common/correlation.py:32-47 | For a signal that is not all zeros every sample of r_xx other than lag 0 is strictly below the lag-0 value, so the first maximum is at index len(x)−1 |
| Correlation.NegativeLagBelowPeak | Common/correlation.py:32-47 | Each negative lag of r_xx of a signal that is not all zeros is strictly below Σ x[n]² |
| Correlation.CrossTermStrict | Common/correlation.py:32-47 | 2·Σ x[j]·x[j−lag] < Σ x[j]² + Σ x[j−lag]² once the window holds a non-zero sample whose partner is zero |
| Correlation.AutoCorrelationOfZeroSignal | Common/correlation.py:32-47 | The auto-correlation of an all-zero signal is all zeros, and its first maximum is at index 0 |
| Correlation.Correlator.NormCorrelation | Common/correlation.py:50-66 | norm_correlation() with any algorithm returns the normalised correlation |
| Correlation.Correlator.NormAutoCorr | Common/correlation.py:69-85 | norm_auto_corr() with any algorithm returns the normalised auto-correlation |
| Correlation.Correlator.Delay | Common/correlation.py:88-100 | delay() may only run after a correlation is stored; it is (len(h)−1) − argmax, 0 exactly when the first maximum sits at index len(h)−1, and lies in [len(h)−len(r), len(h)) |
| RunningSumProgram.CalcRunningSum | 06_Convolution/Student/02_Running_Sum_and_First_Difference/main.cpp:42-50 | With a zero predecessor, dest[0..len) becomes the running sum of the old src[0..len), in place if the buffers coincide; nothing else in dest changes; a distinct src is unchanged; a negative length changes nothing |
| RunningSumProgram.CalcFirstDifference | 06_Convolution/Student/02_Running_Sum_and_First_Difference/main.cpp:52-60 | With a zero predecessor, dest[0..len) becomes the first difference of src[0..len); nothing else in dest changes |
| RunningSumProgram.RunningSumAsWritten | 06_Convolution/Student/02_Running_Sum_and_First_Difference/main.cpp:44-48 | The loop as written, with the value it reads before the destination buffer as a parameter, has one output per input |
| RunningSumProgram.RunningSumAsWrittenOffset | 06_Convolution/Student/02_Running_Sum_and_First_Difference/main.cpp:47 | Every output of the loop as written is the true running sum plus the stray value read at dest[−1] |
| RunningSumProgram.RunningSumAsWrittenCorrect | 06_Convolution/Student/02_Running_Sum_and_First_Difference/main.cpp:47 | The loop as written gives the running sum exactly when the buffer is empty or the stray cell holds 0 |
| RunningSumProgram.RunningSumAsWrittenCounterexample | 06_Convolution/Student/02_Running_Sum_and_First_Difference/main.cpp:47 | One sample 1.0 with 5.0 before the destination gives 6.0 instead of 1.0 |
| RunningSumProgram.FirstDifferenceAsWritten | 06_Convolution/Student/02_Running_Sum_and_First_Difference/main.cpp:54-58 | The loop as written, with the value it reads before the source buffer as a parameter, has one output per input |
| RunningSumProgram.FirstDifferenceAsWrittenCorrect | 06_Convolution/Student/02_Running_Sum_and_First_Difference/main.cpp:57 | The loop as written gives the first difference exactly when the buffer is empty or the stray cell holds 0; outputs after the first are always right |
| RunningSumProgram.FirstDifferenceAsWrittenCounterexample | 06_Convolution/Student/02_Running_Sum_and_First_Difference/main.cpp:57 | One sample 1.0 with 5.0 before the source gives −4.0 instead of 1.0 |
| RunningSumProgram.FirstDifferenceOfRunningSumAsWritten | 06_Convolution/Student/02_Running_Sum_and_First_Difference/main.cpp:20-21 | The two loops as written still undo each other when both stray reads see the same value |
| Auxiliary.ZeroPadding | Common/auxiliary.py:5-30 | zero_padding succeeds exactly when len(h) ≤ len(x), failing with a negative dimension otherwise; on success x is unchanged and h is extended with zeros to len(x), its samples kept as a prefix |
| Auxiliary.ZeroPaddingIdempotent | Common/auxiliary.py:26-30 | zero_padding applied to its own successful output returns it unchanged |
| Auxiliary.ZeroPaddingCounterexample | Common/auxiliary.py:23-25 | x = [1], h = [1, 2] fails, where the intended padding gives ([1, 0], [1, 2]) |
| Auxiliary.ZeroPaddingIntended | Common/auxiliary.py:17-28 | Both outputs have length max(len x, len h); the originals are prefixes; every appended sample is 0 |
| Auxiliary.ZeroPaddingAgreesWhenDefined | Common/auxiliary.py:20-28 | Wherever zero_padding succeeds it agrees with the intended padding |
| Auxiliary.ZeroPaddingIntendedIdempotent | Common/auxiliary.py:26-30 | The intended padding applied to its own output returns it unchanged |
| Auxiliary.ZeroPaddingIntendedSymmetric | Common/auxiliary.py:20-28 | Swapping the two signals swaps the two padded results |
| Auxiliary.ZeroPad | Common/auxiliary.py:50-60 | zero_pad(x, M, L) succeeds exactly when M ≤ L; x is kept as a prefix followed by L−M zeros |
| Auxiliary.ZeroPadToLength | Common/auxiliary.py:50-60 | For len(x) = M ≤ L the result has exactly L samples: x, then zeros |
| Auxiliary.ZeroPadDefaultLength | Common/auxiliary.py:50-60 | Without L, zero_pad uses L = 1024: a signal of M ≤ 1024 samples becomes exactly 1024 samples |
| Auxiliary.ZeroPadIsZeroPadding | Common/auxiliary.py:50-60 | Padding the shorter signal h to len(x) with zero_pad gives the padded h of zero_padding |

## Left out

- Common/fourier_transform.py, Common/fft.py, Common/fir.py, Common/digital_filter.py and
  Common/common_plots.py are not part of this model. They hold trigonometric and
  complex-valued numerics, windowing and plotting.
- `zero_pad_fourier` (Common/auxiliary.py:33-47) is not modelled, because it needs the Fourier
  transform.
- `main()` of the running-sum program is not modelled. It links a 320-sample test signal
  defined elsewhere and writes the three buffers to files. Its two calls pass distinct buffers.
- Floating-point arithmetic is modelled as exact real arithmetic: no rounding, overflow or NaN.
- The square root in `norm_correlation` is a parameter. The model requires only that it maps
  positive numbers to positive numbers. `NormalizedSelfCorrelation` requires it to be the exact
  square root.
- Auxiliary.ZeroPadding: the model describes column-vector inputs of shape `(N, 1)`, as
  sequences of their samples. With a flat array of shape `(M,)` the call
  `np.append(h, np.zeros((N-M, 1)), axis=0)` (Common/auxiliary.py:21) fails on mismatched
  dimensions, so "succeeds exactly when len(h) ≤ len(x)" holds for column vectors only. Other
  shapes are not modelled.
- Correlation.ConvolveWith: the algorithm is one of three named values, so an unrecognised
  algorithm string has no counterpart. The default `output` is the constant `DefaultAlgorithm`,
  the default value of the `algorithm` parameter of the `Correlator` methods.
- Auxiliary.ZeroPad: the default `L = 1024` is the constant `DefaultPadLength`, the default value
  of its `l` parameter.
- Correlation.Correlator.Delay: the documented "negative difference" between the index of the
  maximum and len(h)−1 is read as (len(h)−1) − argmax. The other reading gives the same value
  with the opposite sign, and 0 in the same cases.
- Correlation.Correlator.NormCorrelation and Correlation.Correlator.NormAutoCorr leave the stored
  correlation alone. Only `correlation()` and `auto_corr()` change what `delay()` reads.
- The routines of Common/convolution.py, of Common/correlation.py and `zero_pad`
  (Common/auxiliary.py:50-60) document their results, but their bodies only return `None`. The
  model follows the documented formulas: y[n] = h[n]*x[n], r_xh[n] = x[n]*h[−n],
  r_xh[n]/sqrt(max r_xx · max r_hh), r_xx[n]/max r_xx, y[n] = x[n] − x[n−1] and
  y[n] = x[n] + y[n−1]. `zero_padding` has a body, and the model follows it.
- Correlation.Correlator.AutoCorr: for an all-zero signal every sample of r_xx is 0, so its first
  maximum is at index 0 and `delay()` then gives len(x) − 1, not 0. Lag 0 is the first maximum
  only for signals that are not all zeros (`AutoCorrelationOfZeroSignal`).
- Convolution.Conv2d requires both matrices to be rectangular, as numpy matrices always are.
- RunningSumProgram.CalcFirstDifference requires distinct source and destination buffers.
  When both are the same buffer, the loop reads an already overwritten src[i−1], and that case
  is not modelled.
- RunningSumProgram.CalcRunningSum and RunningSumProgram.CalcFirstDifference model the loops with
  a zero predecessor. The out-of-bounds read of the loops as written is modelled by
  `RunningSumAsWritten` and `FirstDifferenceAsWritten` on sequences (see Findings).

## Findings

| source | as written | input that shows it | evidently intended | confidence | as-written member | corrected member |
|---|---|---|---|---|---|---|
| 06_Convolution/Student/02_Running_Sum_and_First_Difference/main.cpp:47 | At i = 0 the running sum reads the element before the destination buffer (index −1), which is outside the array | src = [1.0], with 5.0 in the cell before dest: the output is [6.0] | The predecessor of the first output is 0, so the output is [1.0] | not executed | RunningSumProgram.RunningSumAsWrittenCorrect | RunningSumProgram.CalcRunningSum |
| 06_Convolution/Student/02_Running_Sum_and_First_Difference/main.cpp:57 | At i = 0 the first difference reads the element before the source buffer (index −1), which is outside the array | src = [1.0], with 5.0 in the cell before src: the output is [−4.0] | The predecessor of the first input is 0, so the output is [1.0] | not executed | RunningSumProgram.FirstDifferenceAsWrittenCorrect | RunningSumProgram.CalcFirstDifference |
| Common/auxiliary.py:23-25 | When h is longer than x, the padding asks for an array of len(x) − len(h) zeros, a negative size, which numpy refuses | x = [1.0], h = [1.0, 2.0] | x is padded with len(h) − len(x) zeros: ([1.0, 0.0], [1.0, 2.0]) | not executed | Auxiliary.ZeroPaddingCounterexample | Auxiliary.ZeroPaddingIntended |
