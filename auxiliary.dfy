/** Zero padding of signals to a common or a given length. Signals are modelled as flat
    sequences of the samples of the column vectors `(N, 1)` the routines work on. */
module Auxiliary {
  import opened Signal

  // ---------------------------------------------------------------------------
  // zero_padding, as written

  /** zero_padding(x, h): when `h` is the shorter signal it is extended with zeros to the length
      of `x`; when the lengths agree both come back unchanged. When `x` is the shorter one the
      routine asks for an array of `len(x) − len(h)` zeros, a negative size, and fails. */
  function ZeroPadding(x: seq<real>, h: seq<real>): (r: Result<(seq<real>, seq<real>)>)
    ensures r.Success? <==> |h| <= |x|
    ensures r.Failure? ==> r.error == NegativeDimension
    ensures r.Success? ==> r.value.0 == x && |r.value.1| == |x| && r.value.1[..|h|] == h
                           && forall i :: |h| <= i < |x| ==> r.value.1[i] == 0.0
  {
    var n, m := |x|, |h|;
    if m < n then Success((x, h + Zeros(n - m)))
    else if m > n then Failure(NegativeDimension)
    else Success((x, h))
  }

  /** Padding the output of zero_padding again changes nothing. */
  lemma ZeroPaddingIdempotent(x: seq<real>, h: seq<real>)
    requires ZeroPadding(x, h).Success?
    ensures var (xp, hp) := ZeroPadding(x, h).value;
            ZeroPadding(xp, hp) == Success((xp, hp))
  {
  }

  /** A concrete input on which zero_padding fails although padding `x` was intended: a signal of
      one sample against a kernel of two. */
  lemma ZeroPaddingCounterexample()
    ensures ZeroPadding([1.0], [1.0, 2.0]) == Failure(NegativeDimension)
    ensures ZeroPaddingIntended([1.0], [1.0, 2.0]) == ([1.0, 0.0], [1.0, 2.0])
  {
    assert [1.0] + Zeros(1) == [1.0, 0.0];
  }

  // ---------------------------------------------------------------------------
  // zero_padding, as intended

  /** The shorter of the two signals is extended with zeros to the length of the longer one. */
  function ZeroPaddingIntended(x: seq<real>, h: seq<real>): (r: (seq<real>, seq<real>))
    ensures |r.0| == |r.1| == if |x| < |h| then |h| else |x|
    ensures r.0[..|x|] == x && r.1[..|h|] == h
    ensures forall i :: |x| <= i < |r.0| ==> r.0[i] == 0.0
    ensures forall i :: |h| <= i < |r.1| ==> r.1[i] == 0.0
  {
    var n, m := |x|, |h|;
    if m < n then (x, h + Zeros(n - m))
    else if m > n then (x + Zeros(m - n), h)
    else (x, h)
  }

  /** Wherever zero_padding succeeds it agrees with the intended padding. */
  lemma ZeroPaddingAgreesWhenDefined(x: seq<real>, h: seq<real>)
    ensures ZeroPadding(x, h).Success? ==> ZeroPadding(x, h).value == ZeroPaddingIntended(x, h)
  {
  }

  /** Padding the output of the intended padding again changes nothing. */
  lemma ZeroPaddingIntendedIdempotent(x: seq<real>, h: seq<real>)
    ensures var (xp, hp) := ZeroPaddingIntended(x, h);
            ZeroPaddingIntended(xp, hp) == (xp, hp)
  {
  }

  /** Swapping the two signals swaps the two padded results. */
  lemma ZeroPaddingIntendedSymmetric(x: seq<real>, h: seq<real>)
    ensures var (xp, hp) := ZeroPaddingIntended(x, h);
            ZeroPaddingIntended(h, x) == (hp, xp)
  {
  }

  // ---------------------------------------------------------------------------
  // zero_pad

  /** The default new size `L` of zero_pad. */
  const DefaultPadLength: int := 1024

  /** zero_pad(x, M, L): `x` followed by `L − M` zeros, `M` being the length of the filter
      kernel; a negative number of zeros is a negative array size. */
  function ZeroPad(x: seq<real>, m: int, l: int := DefaultPadLength): (r: Result<seq<real>>)
    ensures r.Success? <==> m <= l
    ensures r.Failure? ==> r.error == NegativeDimension
    ensures r.Success? ==> |r.value| == |x| + (l - m) && r.value[..|x|] == x
                           && forall i :: |x| <= i < |r.value| ==> r.value[i] == 0.0
  {
    if l < m then Failure(NegativeDimension) else Success(x + Zeros(l - m))
  }

  /** For a signal of length M, zero_pad gives a signal of exactly L samples: `x` and then
      zeros. */
  lemma ZeroPadToLength(x: seq<real>, l: int)
    requires |x| <= l
    ensures ZeroPad(x, |x|, l).Success?
    ensures var y := ZeroPad(x, |x|, l).value;
            |y| == l && y[..|x|] == x && forall i :: |x| <= i < l ==> y[i] == 0.0
  {
  }

  /** Without a new size, zero_pad extends a signal of length M to 1024 samples. */
  lemma ZeroPadDefaultLength(x: seq<real>)
    requires |x| <= 1024
    ensures ZeroPad(x, |x|).Success? && |ZeroPad(x, |x|).value| == 1024
  {
    ZeroPadToLength(x, DefaultPadLength);
  }

  /** zero_pad of the shorter signal `h` to the length of `x` is the padded `h` that
      zero_padding returns. */
  lemma ZeroPadIsZeroPadding(x: seq<real>, h: seq<real>)
    requires |h| <= |x|
    ensures ZeroPad(h, |h|, |x|) == Success(ZeroPadding(x, h).value.1)
  {
    if |h| == |x| {
      assert h + Zeros(0) == h;
    }
  }
}
