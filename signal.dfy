/** Shared vocabulary of the signal routines: error outcomes, zero extension of a
    finite signal, reversal, elementwise division and the maximum of a signal. */
module Signal {

  /** The ways a routine of the toolkit can fail. */
  datatype Error =
    | DimensionMismatch   // an input has no samples
    | DivisionByZero      // normalisation by a zero maximum
    | NegativeDimension   // an array of negative size was requested

  datatype Result<+T> = Success(value: T) | Failure(error: Error)

  /** Sample `i` of `s`, with every index outside `0..|s|-1` reading as zero. */
  function At(s: seq<real>, i: int): real
  {
    if 0 <= i < |s| then s[i] else 0.0
  }

  /** `n` zeros. */
  function Zeros(n: nat): (z: seq<real>)
    ensures |z| == n && forall i :: 0 <= i < n ==> z[i] == 0.0
  {
    seq(n, _ => 0.0)
  }

  /** The time-reversed signal: sample `i` of the result is sample `|s|-1-i` of `s`. */
  function Reverse(s: seq<real>): (r: seq<real>)
    ensures |r| == |s|
  {
    seq(|s|, i requires 0 <= i < |s| => s[|s| - 1 - i])
  }

  /** Reading the reversed signal at any index reads the original mirrored about its centre. */
  lemma AtReverse(s: seq<real>, i: int)
    ensures At(Reverse(s), i) == At(s, |s| - 1 - i)
  {
  }

  /** Reversing twice gives the signal back. */
  lemma ReverseReverse(s: seq<real>)
    ensures Reverse(Reverse(s)) == s
  {
  }

  /** Elementwise division of `s` by the scalar `d`, as numpy's `s / d`. */
  function Divide(s: seq<real>, d: real): (r: seq<real>)
    requires d != 0.0
    ensures |r| == |s|
  {
    seq(|s|, i requires 0 <= i < |s| => s[i] / d)
  }

  /** True when some sample of `s` is not zero. */
  predicate HasNonZero(s: seq<real>)
  {
    exists i :: 0 <= i < |s| && s[i] != 0.0
  }

  /** The index of the last sample of `s` that is not zero. */
  function LastNonZero(s: seq<real>): (q: nat)
    requires HasNonZero(s)
    ensures q < |s| && s[q] != 0.0
    ensures forall j :: q < j < |s| ==> s[j] == 0.0
  {
    if s[|s| - 1] != 0.0 then |s| - 1
    else
      var p := s[..|s| - 1];
      assert HasNonZero(p) by {
        var i :| 0 <= i < |s| && s[i] != 0.0;
        assert p[i] == s[i];
      }
      LastNonZero(p)
  }

  /** The largest sample of a non-empty signal, as numpy's `max`. */
  function MaxOf(s: seq<real>): (m: real)
    requires |s| > 0
    ensures exists i :: 0 <= i < |s| && s[i] == m
    ensures forall i :: 0 <= i < |s| ==> s[i] <= m
  {
    if |s| == 1 then s[0]
    else
      var rest := MaxOf(s[1..]);
      assert forall i :: 1 <= i < |s| ==> s[i] == s[1..][i - 1];
      if s[0] >= rest then s[0] else rest
  }

  /** The first index at which a non-empty signal takes its largest value, as numpy's `argmax`. */
  function ArgMax(s: seq<real>): (k: nat)
    requires |s| > 0
    ensures k < |s| && s[k] == MaxOf(s)
    ensures forall i :: 0 <= i < k ==> s[i] < s[k]
  {
    if |s| == 1 || s[0] == MaxOf(s) then 0
    else
      assert s[1..] != [];
      var k := 1 + ArgMax(s[1..]);
      MaxTail(s);
      k
  }

  /** When the first sample is not the largest, the tail has the same maximum. */
  lemma MaxTail(s: seq<real>)
    requires |s| > 1 && s[0] != MaxOf(s)
    ensures MaxOf(s[1..]) == MaxOf(s)
  {
    var m := MaxOf(s);
    var i :| 0 <= i < |s| && s[i] == m;
    assert s[1..][i - 1] == m;
    assert forall j :: 0 <= j < |s| - 1 ==> s[1..][j] == s[j + 1];
  }

  /** Dividing by a positive scalar divides the maximum by it. */
  lemma {:induction false} MaxOfDivide(s: seq<real>, d: real)
    requires |s| > 0 && d > 0.0
    ensures MaxOf(Divide(s, d)) == MaxOf(s) / d
  {
    var t := Divide(s, d);
    var m := MaxOf(s);
    var i :| 0 <= i < |s| && s[i] == m;
    forall j | 0 <= j < |s|
      ensures t[j] <= m / d
    {
      DivideMonotone(s[j], m, d);
    }
    assert t[i] == m / d;
    var mt := MaxOf(t);
    var k :| 0 <= k < |t| && t[k] == mt;
    assert mt <= m / d;
    assert m / d <= mt;
  }

  /** The first index holding the maximum, with every earlier sample smaller, is the argmax. */
  lemma ArgMaxUnique(s: seq<real>, k: nat)
    requires k < |s| && s[k] == MaxOf(s)
    requires forall i :: 0 <= i < k ==> s[i] < s[k]
    ensures ArgMax(s) == k
  {
  }

  /** Dividing by a positive scalar keeps the first index of the maximum. */
  lemma ArgMaxDivide(s: seq<real>, d: real)
    requires |s| > 0 && d > 0.0
    ensures ArgMax(Divide(s, d)) == ArgMax(s)
  {
    var t := Divide(s, d);
    var k := ArgMax(s);
    MaxOfDivide(s, d);
    forall i | 0 <= i < k
      ensures t[i] < t[k]
    {
      DivideStrict(s[i], s[k], d);
    }
    ArgMaxUnique(t, k);
  }

  /** Division by a positive scalar keeps the sign. */
  lemma DivideKeepsSign(a: real, d: real)
    requires d > 0.0
    ensures (a / d > 0.0 <==> a > 0.0) && (a / d == 0.0 <==> a == 0.0)
  {
    assert a / d * d == a;
    if a > 0.0 {
      DivideStrict(0.0, a, d);
    } else if a < 0.0 {
      DivideStrict(a, 0.0, d);
    }
  }

  lemma DivideStrict(a: real, b: real, d: real)
    requires a < b && d > 0.0
    ensures a / d < b / d
  {
    assert b / d - a / d == (b - a) / d;
    assert (b - a) / d * d == b - a;
  }

  lemma DivideMonotone(a: real, b: real, d: real)
    requires a <= b && d > 0.0
    ensures a / d <= b / d
  {
    assert b / d - a / d == (b - a) / d;
    assert (b - a) / d * d == b - a;
  }
}
