/** The two in-place online-softmax states: the runtime's, with explicit status codes and merging, and
    the attention reference's.  Both are proved against the accumulation of module Softmax. */
module OnlineSoftmax {
  import opened Softmax

  const MAX_HEAD_DIM: nat := 128

  datatype Status = Ok | InvalidArgument | Unsupported

  datatype Score = MinusInfinity | Finite(x: real)

  /** In-place scaling of a buffer and addition of another, scaled. */
  method Blend(buffer: array<real>, a: real, other: seq<real>, b: real)
    requires |other| == buffer.Length
    modifies buffer
    ensures buffer[..] == Blended(old(buffer[..]), a, other, b)
  {
    ghost var was := buffer[..];
    ghost var goal := Blended(was, a, other, b);
    for d := 0 to buffer.Length
      invariant forall i :: 0 <= i < d ==> buffer[i] == goal[i]
      invariant forall i :: d <= i < buffer.Length ==> buffer[i] == was[i]
    {
      buffer[d] := buffer[d] * a + other[d] * b;
    }
    assert buffer[..] == goal;
  }

  method Overwrite(buffer: array<real>, value: seq<real>)
    requires |value| == buffer.Length
    modifies buffer
    ensures buffer[..] == value
  {
    for d := 0 to buffer.Length
      invariant forall i :: 0 <= i < d ==> buffer[i] == value[i]
    {
      buffer[d] := value[d];
    }
  }

  class OnlineSoftmaxState {
    var maxScore: Score
    var expSum: real
    var weightedValues: array<real>
    var initialized: bool

    /** An initialised state has a finite maximum and a positive sum. */
    ghost predicate Valid()
      reads this
    {
      initialized ==> maxScore.Finite?
    }

    ghost function State(): Acc
      reads this, weightedValues
    {
      Acc(initialized, if maxScore.Finite? then maxScore.x else 0.0, expSum, weightedValues[..])
    }

    /** A fresh, unstarted state over the caller's buffer. */
    constructor (buffer: array<real>)
      ensures weightedValues == buffer && !initialized && Valid()
    {
      maxScore, expSum, weightedValues, initialized := MinusInfinity, 0.0, buffer, false;
    }

    method Init(buffer: array<real>) returns (status: Status)
      modifies this, buffer
      ensures status == Ok <==> 0 < buffer.Length <= MAX_HEAD_DIM
      ensures status == Ok ==> Valid() && weightedValues == buffer && State() == Empty(buffer.Length)
      ensures status != Ok ==> unchanged(this) && unchanged(buffer)
    {
      if buffer.Length == 0 || buffer.Length > MAX_HEAD_DIM {
        return InvalidArgument;
      }
      maxScore, expSum, weightedValues, initialized := MinusInfinity, 0.0, buffer, false;
      Overwrite(buffer, seq(buffer.Length, i => 0.0));
      status := Ok;
    }

    method Accumulate(exp: Exp, score: real, value: seq<real>) returns (status: Status)
      requires Valid() && |value| == weightedValues.Length
      modifies this, weightedValues
      ensures status == Ok <==> weightedValues.Length > 0
      ensures weightedValues == old(weightedValues) && Valid()
      ensures status == Ok ==> State() == Add(exp, old(State()), score, value)
      ensures status != Ok ==> unchanged(this) && unchanged(weightedValues)
    {
      if weightedValues.Length == 0 {
        return InvalidArgument;
      }
      status := Ok;
      if !initialized {
        maxScore, expSum := Finite(score), 1.0;
        Overwrite(weightedValues, value);
        initialized := true;
        return;
      }
      var nextMax := if score > maxScore.x then score else maxScore.x;
      var oldScale, newScale := exp(maxScore.x - nextMax), exp(score - nextMax);
      expSum := expSum * oldScale + newScale;
      Blend(weightedValues, oldScale, value, newScale);
      maxScore := Finite(nextMax);
    }

    /** Adds what src had seen; src may be this state itself, or share its buffer: each element is read before it is
        written. */
    method MergeFrom(exp: Exp, src: OnlineSoftmaxState) returns (status: Status)
      requires Valid() && src.Valid()
      modifies this, weightedValues
      ensures status == Ok <==> weightedValues.Length > 0 && weightedValues.Length == old(src.weightedValues.Length)
      ensures weightedValues == old(weightedValues) && Valid()
      ensures status == Ok ==> State() == Merge(exp, old(State()), old(src.State()))
      ensures status != Ok ==> unchanged(this) && unchanged(weightedValues)
    {
      if weightedValues.Length == 0 || weightedValues.Length != src.weightedValues.Length {
        return InvalidArgument;
      }
      status := Ok;
      if !src.initialized {
        return;
      }
      if !initialized {
        maxScore, expSum, initialized := src.maxScore, src.expSum, true;
        Overwrite(weightedValues, src.weightedValues[..]);
        return;
      }
      var nextMax := if src.maxScore.x > maxScore.x then src.maxScore.x else maxScore.x;
      var dstScale, srcScale := exp(maxScore.x - nextMax), exp(src.maxScore.x - nextMax);
      expSum := expSum * dstScale + src.expSum * srcScale;
      Blend(weightedValues, dstScale, src.weightedValues[..], srcScale);
      maxScore := Finite(nextMax);
    }

    /** The mean of everything the state has seen, whatever history it sums up. */
    method Finalize(exp: Exp) returns (status: Status, out: seq<real>)
      requires Valid()
      ensures status == Ok <==> initialized && weightedValues.Length > 0 && expSum > 0.0
      ensures status == Ok ==> |out| == weightedValues.Length
      ensures forall h :: Sums(exp, State(), h) ==>
        && (status == Ok <==> h != [] && weightedValues.Length > 0)
        && (status == Ok ==> forall d :: 0 <= d < |out| ==> out[d] == Mean(exp, h, d))
    {
      out := [];
      if !initialized || weightedValues.Length == 0 || expSum <= 0.0 {
        forall h | Sums(exp, State(), h)
          ensures h == [] || weightedValues.Length == 0
        {
          if h != [] {
            FinalSum(exp, State(), h);
          }
        }
        return InvalidArgument, [];
      }
      for d := 0 to weightedValues.Length
        invariant |out| == d
        invariant forall i :: 0 <= i < d ==> out[i] == weightedValues[i] / expSum
      {
        out := out + [weightedValues[d] / expSum];
      }
      status := Ok;
      forall h, d | Sums(exp, State(), h) && 0 <= d < |out|
        ensures out[d] == Mean(exp, h, d)
      {
        FinalMean(exp, State(), h, d);
      }
    }
  }

  /** The attention reference's state: started once its denominator is not zero. */
  class OnlineState {
    var maximum: Score
    var denominator: real
    var weighted: array<real>

    ghost predicate Valid()
      reads this
    {
      denominator != 0.0 <==> maximum.Finite?
    }

    ghost function State(): Acc
      reads this, weighted
    {
      Acc(denominator != 0.0, if maximum.Finite? then maximum.x else 0.0, denominator, weighted[..])
    }

    constructor (dim: nat)
      ensures Valid() && fresh(weighted) && weighted.Length == dim
      ensures State() == Empty(dim)
    {
      maximum, denominator := MinusInfinity, 0.0;
      weighted := new real[dim](i => 0.0);
      new;
      assert weighted[..] == Empty(dim).weighted;
    }

    /** Accumulates one token, for any history the state sums up. */
    method AddToken(exp: Exp, score: real, value: seq<real>, ghost h: seq<Token>)
      requires Valid() && |value| == weighted.Length && Sums(exp, State(), h)
      requires denominator == 0.0 ==> State() == Empty(weighted.Length)
      modifies this, weighted
      ensures Valid() && weighted == old(weighted) && denominator > 0.0
      ensures Sums(exp, State(), h + [Token(score, value)])
    {
      hide Sums, Add, Exponential;
      ghost var a := State();
      var nextMax := if maximum.Finite? && maximum.x > score then maximum.x else score;
      var oldScale := if denominator == 0.0 then 0.0 else exp(maximum.x - nextMax);
      var newScale := exp(score - nextMax);
      denominator := denominator * oldScale + newScale;
      Blend(weighted, oldScale, value, newScale);
      maximum := Finite(nextMax);
      ReferenceAdd(exp, a, score, value, nextMax, oldScale, newScale, denominator, weighted[..]);
      AddSums(exp, a, h, score, value);
      FinalSum(exp, Add(exp, a, score, value), h + [Token(score, value)]);
    }
  }

  lemma ReferenceAdd(exp: Exp, a: Acc, score: real, value: seq<real>, nextMax: real, oldScale: real, newScale: real,
                     sum: real, weighted: seq<real>)
    requires |value| == |a.weighted| == |weighted|
    requires !a.started ==>
      a.sum == 0.0 && (forall d :: 0 <= d < |value| ==> a.weighted[d] == 0.0) && oldScale == 0.0 && nextMax == score
    requires a.started ==> nextMax == MaxReal(a.top, score) && oldScale == exp(a.top - nextMax)
    requires newScale == exp(score - nextMax) && sum == a.sum * oldScale + newScale
    requires weighted == Blended(a.weighted, oldScale, value, newScale)
    ensures Acc(true, nextMax, sum, weighted) == Add(exp, a, score, value)
  {
    if !a.started {
      assert score - score == 0.0 && exp(0.0) == 1.0;
      assert weighted == value;
    }
  }

  lemma FinalSum(exp: Exp, a: Acc, h: seq<Token>)
    requires h != []
    ensures Sums(exp, a, h) ==> a.sum > 0.0
  {
    if Sums(exp, a, h) {
      MassPositive(exp, h, a.top);
    }
  }
}
