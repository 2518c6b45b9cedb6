/** The C routines `calc_running_sum` and `calc_first_difference`, which fill a destination
    buffer from a source buffer sample by sample.

    As written, both loops read one element before the start of a buffer when `i == 0`
    (`sig_dest_arr[-1]` and `sig_src_arr[-1]`). The `...AsWritten` functions model that read
    as an unknown value `before`; the methods are the intended loops, which take the missing
    predecessor to be zero and so compute `RunningSum` and `FirstDifference` exactly. */
module RunningSumProgram {
  import opened Signal
  import opened Convolution

  // ---------------------------------------------------------------------------
  // The loops as written

  /** The output of `calc_running_sum` as written over `src`, when the cell just before the
      destination buffer holds `before`: y[0] = before + src[0], y[i] = y[i−1] + src[i]. */
  function RunningSumAsWritten(src: seq<real>, before: real): (y: seq<real>)
    ensures |y| == |src|
  {
    if |src| == 0 then []
    else
      var p := RunningSumAsWritten(src[..|src| - 1], before);
      p + [(if |src| == 1 then before else p[|src| - 2]) + src[|src| - 1]]
  }

  /** The output of `calc_first_difference` as written over `src`, when the cell just before the
      source buffer holds `before`: y[0] = src[0] − before, y[i] = src[i] − src[i−1]. */
  function FirstDifferenceAsWritten(src: seq<real>, before: real): (y: seq<real>)
    ensures |y| == |src|
  {
    seq(|src|, i requires 0 <= i < |src| => src[i] - (if i == 0 then before else src[i - 1]))
  }

  /** Every output of the running sum as written is off by the stray value it started from. */
  lemma {:induction false} RunningSumAsWrittenOffset(src: seq<real>, before: real)
    ensures forall i :: 0 <= i < |src| ==> RunningSumAsWritten(src, before)[i] == before + RunningSum(src)[i]
  {
    if |src| > 0 {
      var src' := src[..|src| - 1];
      RunningSumAsWrittenOffset(src', before);
      RunningSumPrefix(src, |src| - 1);
      if |src| > 1 {
        RunningSumRecurrence(src, |src| - 1);
      }
    }
  }

  /** The running sum as written is the running sum exactly when the buffer is empty or the stray
      cell happens to hold zero. */
  lemma RunningSumAsWrittenCorrect(src: seq<real>, before: real)
    ensures RunningSumAsWritten(src, before) == RunningSum(src) <==> |src| == 0 || before == 0.0
  {
    RunningSumAsWrittenOffset(src, before);
    if |src| > 0 && before != 0.0 {
      assert RunningSumAsWritten(src, before)[0] != RunningSum(src)[0];
    }
  }

  /** The first difference as written is the first difference exactly when the buffer is empty
      or the stray cell happens to hold zero; every later output is right. */
  lemma FirstDifferenceAsWrittenCorrect(src: seq<real>, before: real)
    ensures FirstDifferenceAsWritten(src, before) == FirstDifference(src) <==> |src| == 0 || before == 0.0
    ensures forall i :: 1 <= i < |src| ==> FirstDifferenceAsWritten(src, before)[i] == FirstDifference(src)[i]
  {
    if |src| > 0 && before != 0.0 {
      assert FirstDifferenceAsWritten(src, before)[0] != FirstDifference(src)[0];
    }
  }

  /** A concrete input on which the running sum as written goes wrong: one sample 1.0 with 5.0 in
      the cell before the destination gives 6.0 instead of 1.0. */
  lemma RunningSumAsWrittenCounterexample()
    ensures RunningSumAsWritten([1.0], 5.0) == [6.0]
    ensures RunningSum([1.0]) == [1.0]
  {
  }

  /** A concrete input on which the first difference as written goes wrong: one sample 1.0 with
      5.0 in the cell before the source gives −4.0 instead of 1.0. */
  lemma FirstDifferenceAsWrittenCounterexample()
    ensures FirstDifferenceAsWritten([1.0], 5.0) == [-4.0]
    ensures FirstDifference([1.0]) == [1.0]
  {
  }

  /** The two loops as written still undo each other when the stray cell they read holds the same
      value: the offset the running sum starts from is the one the difference takes away. */
  lemma FirstDifferenceOfRunningSumAsWritten(src: seq<real>, before: real)
    ensures FirstDifferenceAsWritten(RunningSumAsWritten(src, before), before) == src
  {
    var y := RunningSumAsWritten(src, before);
    RunningSumAsWrittenOffset(src, before);
    FirstDifferenceOfRunningSum(src);
    forall i | 0 <= i < |src|
      ensures FirstDifferenceAsWritten(y, before)[i] == src[i]
    {
      assert FirstDifference(RunningSum(src))[i] == src[i];
    }
  }

  // ---------------------------------------------------------------------------
  // The loops with the predecessor of the first sample taken as zero

  /** calc_running_sum: dest[i] = dest[i−1] + src[i] for i in 0 .. length−1, with dest[−1] read
      as zero. The buffers may be the same one; nothing at or after `length` changes, and a
      negative length changes nothing. */
  method CalcRunningSum(src: array<real>, dest: array<real>, length: int)
    requires length <= src.Length && length <= dest.Length
    modifies dest
    ensures var n := if length < 0 then 0 else length;
            dest[..n] == RunningSum(old(src[..n])) && dest[n..] == old(dest[n..])
    ensures src != dest ==> src[..] == old(src[..])
  {
    var n := if length < 0 then 0 else length;
    ghost var x := src[..n];
    var i := 0;
    while i < length
      invariant 0 <= i <= n
      invariant forall k :: 0 <= k < i ==> dest[k] == PrefixSum(x, k + 1)
      invariant forall k :: i <= k < dest.Length ==> dest[k] == old(dest[k])
      invariant forall k :: i <= k < src.Length ==> src[k] == old(src[k])
      invariant src != dest ==> src[..] == old(src[..])
    {
      assert src[i] == x[i];
      dest[i] := (if i == 0 then 0.0 else dest[i - 1]) + src[i];
      i := i + 1;
    }
    RunningSumIsPrefixSum(x);
    assert dest[..n] == RunningSum(x);
    assert dest[n..] == old(dest[n..]);
  }

  /** calc_first_difference: dest[i] = src[i] − src[i−1] for i in 0 .. length−1, with src[−1]
      read as zero. The buffers must be different ones; nothing at or after `length` changes,
      and a negative length changes nothing. */
  method CalcFirstDifference(src: array<real>, dest: array<real>, length: int)
    requires src != dest
    requires length <= src.Length && length <= dest.Length
    modifies dest
    ensures var n := if length < 0 then 0 else length;
            dest[..n] == FirstDifference(src[..n]) && dest[n..] == old(dest[n..])
  {
    var n := if length < 0 then 0 else length;
    var i := 0;
    while i < length
      invariant 0 <= i <= n
      invariant forall k :: 0 <= k < i ==> dest[k] == src[k] - At(src[..n], k - 1)
      invariant forall k :: i <= k < dest.Length ==> dest[k] == old(dest[k])
    {
      dest[i] := src[i] - (if i == 0 then 0.0 else src[i - 1]);
      i := i + 1;
    }
    assert dest[..n] == FirstDifference(src[..n]);
    assert dest[n..] == old(dest[n..]);
  }
}
