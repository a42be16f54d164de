/** Exactly which magnitudes stay inside the error budget of the adaptive codec. */
module BudgetThreshold {
  import opened Arithmetic
  import opened Bits
  import opened Blockwise
  import opened ByteCodes
  import opened Common
  import opened Recompression

  /** Every page of this greatest magnitude comes back, value by value, to within the budget. */
  ghost predicate Safe(c: Codec, blockSize: nat, maximum: real, budget: real)
    requires c != Fp16 && blockSize > 0
  {
    forall input: seq<real>, payload, scales, i ::
      Packed(input, c, blockSize, payload, scales) && MaxAbs(input) == maximum && 0 <= i < |input| ==>
      BackWithin(input, c, blockSize, payload, scales, i, budget)
  }

  ghost predicate BackWithin(input: seq<real>, c: Codec, blockSize: nat, payload: seq<Byte>, scales: seq<Scale>, i: nat,
                             budget: real)
    requires c != Fp16 && blockSize > 0 && i < |input|
  {
    && Readable(payload, scales, |input|, c, blockSize)
    && Abs(Restored(payload, scales, |input|, c, blockSize)[i] - input[i]) <= budget
  }

  lemma ErrorBelow(error: real, c: Codec, maximum: real, budget: real)
    requires HalfStep(error, c, maximum) && maximum <= (2 * Qmax(c)) as real * budget
    ensures error <= budget
  {
    var q := Qmax(c) as real;
    assert q * (2.0 * error) == (2.0 * q) * error;
    assert (2 * Qmax(c)) as real == 2.0 * q;
    assert (2.0 * q) * (error - budget) <= 0.0;
    assert error > budget ==> (2.0 * q) * (error - budget) > 0.0;
  }

  /** Below the threshold every page is safe. */
  lemma BelowIsSafe(c: Codec, blockSize: nat, maximum: real, budget: real)
    requires c != Fp16 && blockSize > 0 && maximum <= (2 * Qmax(c)) as real * budget
    ensures Safe(c, blockSize, maximum, budget)
  {
    hide Packed, Readable, Restored, MaxAbs, Abs, HalfStep;
    forall input: seq<real>, payload, scales, i |
      Packed(input, c, blockSize, payload, scales) && MaxAbs(input) == maximum && 0 <= i < |input|
      ensures BackWithin(input, c, blockSize, payload, scales, i, budget)
    {
      PageError(input, c, blockSize, payload, scales, i);
      ErrorBelow(Abs(Restored(payload, scales, |input|, c, blockSize)[i] - input[i]), c, maximum, budget);
    }
  }

  // ---- blocks of one value --------------------------------------------------------------------------

  /** A value at the edge of its scale comes back as it was. */
  lemma RoundedEdge(x: real, scale: Scale, c: Codec)
    requires Abs(x) == Qmax(c) as real * scale
    ensures Rounded(x, scale, c) == x
  {
    QuantizedAgain(Qmax(c), scale, c);
    QuantizedAgain(-Qmax(c), scale, c);
    assert x == Qmax(c) as real * scale || x == (-Qmax(c)) as real * scale;
  }

  lemma OneValue(x: real, scale: Scale, c: Codec)
    requires scale == ScaleFor(MaxAbs([x]), c)
    ensures Rounded(x, scale, c) == x
  {
    hide Rounded;
    MaxAbsIs([x], Abs(x)) by { assert Abs([x][0]) == Abs(x); }
    if x == 0.0 {
      RoundedZero(scale, c);
    } else {
      RoundedEdge(x, scale, c);
    }
  }

  lemma StartOfOne(b: nat)
    ensures Start(b, 1) == b && BlockOf(b, 1) == b
  {
    StartIs(b, 1);
    InBlock(b, b, 1);
  }

  /** With one value to a block nothing is lost. */
  lemma SingletonsExact(input: seq<real>, c: Codec, payload: seq<Byte>, scales: seq<Scale>, i: nat)
    requires c != Fp16 && Packed(input, c, 1, payload, scales) && i < |input|
    ensures Readable(payload, scales, |input|, c, 1) && Restored(payload, scales, |input|, c, 1)[i] == input[i]
  {
    hide Scaled, Coded, Rounded, Restored, Readable, MaxAbs, PackedBytes, Start, BlockOf, ScaleFor;
    StartOfOne(i);
    RestoredAt(input, c, 1, payload, scales, i);
    ScaledAt(input, c, 1, scales, i);
    assert Block(input, 1, i) == [input[i]];
    OneValue(input[i], scales[i], c);
  }

  lemma SingletonsSafe(c: Codec, maximum: real, budget: real)
    requires c != Fp16 && budget >= 0.0
    ensures Safe(c, 1, maximum, budget)
  {
    hide Packed, Readable, Restored, MaxAbs;
    forall input: seq<real>, payload, scales, i |
      Packed(input, c, 1, payload, scales) && MaxAbs(input) == maximum && 0 <= i < |input|
      ensures BackWithin(input, c, 1, payload, scales, i, budget)
    {
      SingletonsExact(input, c, payload, scales, i);
    }
  }

  // ---- a page that fails ----------------------------------------------------------------------------

  /** The first n values put into clear codes. */
  lemma {:induction false} PutAll(input: seq<real>, c: Codec, scale: Scale, clear: seq<Byte>, n: nat)
    returns (payload: seq<Byte>)
    requires c != Fp16 && n <= |input| <= Capacity(|clear|, BitsFor(c))
    requires forall j :: 0 <= j < Capacity(|clear|, BitsFor(c)) ==> Code(clear, j, BitsFor(c)) == Zeros(BitsFor(c))
    ensures |payload| == |clear|
    ensures forall j :: 0 <= j < Capacity(|clear|, BitsFor(c)) ==>
      Code(payload, j, BitsFor(c))
        == if j < n then FromNat(Quantized(input[j], scale, c), BitsFor(c)) else Zeros(BitsFor(c))
    decreases n
  {
    hide Code, Capacity, PutCode, FromNat, Quantized;
    payload := clear;
    if n > 0 {
      var w, q := BitsFor(c), Quantized(input[n - 1], scale, c);
      var before := PutAll(input, c, scale, clear, n - 1);
      payload := PutCode(before, n - 1, q, w);
      forall j | 0 <= j < Capacity(|clear|, w)
        ensures Code(payload, j, w) == if j == n - 1 then FromNat(q, w) else Code(before, j, w)
      {
        PutCodeIs(before, n - 1, q, w, j);
      }
    }
  }

  lemma ClearPayload(c: Codec, count: nat) returns (clear: seq<Byte>)
    requires c != Fp16 && 0 < count && count + 4 <= UINT32
    ensures |clear| == PackedBytes(c, count) && count <= Capacity(|clear|, BitsFor(c))
    ensures forall j :: 0 <= j < Capacity(|clear|, BitsFor(c)) ==> Code(clear, j, BitsFor(c)) == Zeros(BitsFor(c))
  {
    hide Code, Capacity, PackedBytes;
    clear := seq(PackedBytes(c, count), _ => Zeros(8));
    BytesHold(c, count);
    forall j | 0 <= j < Capacity(|clear|, BitsFor(c))
      ensures Code(clear, j, BitsFor(c)) == Zeros(BitsFor(c))
    {
      ClearCodes(PackedBytes(c, count), j, BitsFor(c));
    }
  }

  /** Any values that fit one block have a packed form. */
  lemma OneBlockPacked(input: seq<real>, c: Codec, blockSize: nat) returns (payload: seq<Byte>, scales: seq<Scale>)
    requires c != Fp16 && 0 < |input| <= blockSize && |input| + 4 <= UINT32
    ensures Packed(input, c, blockSize, payload, scales) && scales == [ScaleFor(MaxAbs(input), c)]
    ensures forall i :: 0 <= i < |input| ==> BlockOf(i, blockSize) == 0
  {
    hide MaxAbs, ScaleFor, Code, Capacity, FromNat, Quantized, PackedBytes, Block;
    scales := [ScaleFor(MaxAbs(input), c)];
    var clear := ClearPayload(c, |input|);
    payload := PutAll(input, c, scales[0], clear, |input|);
    BlockIs(input, blockSize, 0);
    assert Block(input, blockSize, 0) == input;
  }

  /** The greatest magnitude, and half a step of its scale. */
  function Edge(maximum: real, c: Codec): seq<real> {
    [maximum, maximum / (2 * Qmax(c)) as real]
  }

  lemma HalfStepLost(scale: Scale, x: real, c: Codec)
    requires x / scale == 0.5
    ensures Rounded(x, scale, c) == 0.0
  {
  }

  lemma HalfOfScale(maximum: real, half: real, scale: real, q: real)
    requires q >= 1.0 && maximum > 0.0 && half * (2.0 * q) == maximum && q * scale == maximum
    ensures 0.0 < half <= maximum && scale == 2.0 * half && half / scale == 0.5
  {
    assert (scale - 2.0 * half) * q == 0.0;
    assert scale == 2.0 * half;
    assert half <= 0.0 ==> half * (2.0 * q) <= 0.0;
    assert maximum - half == half * (2.0 * q - 1.0);
    assert half * (2.0 * q - 1.0) >= 0.0;
  }

  /** Half a step rounds to zero: the error is the whole half step. */
  lemma EdgeLost(maximum: real, c: Codec)
    requires maximum > 0.0
    ensures MaxAbs(Edge(maximum, c)) == maximum
    ensures Rounded(Edge(maximum, c)[1], ScaleFor(maximum, c), c) == 0.0
  {
    hide Rounded, MaxAbs;
    var scale, half := ScaleFor(maximum, c), Edge(maximum, c)[1];
    EdgeHalf(maximum, c);
    HalfOfScale(maximum, half, scale, Qmax(c) as real);
    HalfStepLost(scale, half, c);
    MaxAbsIs(Edge(maximum, c), maximum) by { assert Abs(Edge(maximum, c)[0]) == maximum; }
  }

  lemma EdgeHalf(maximum: real, c: Codec)
    ensures Edge(maximum, c)[1] * (2.0 * Qmax(c) as real) == maximum
  {
    assert (2 * Qmax(c)) as real == 2.0 * Qmax(c) as real;
  }

  lemma AboveIsUnsafe(c: Codec, blockSize: nat, maximum: real, budget: real)
    requires c != Fp16 && blockSize >= 2 && maximum >= 0.0 && maximum > (2 * Qmax(c)) as real * budget
    ensures !Safe(c, blockSize, maximum, budget)
  {
    hide Packed, Readable, Restored, MaxAbs, Rounded, ScaleFor;
    var input := Edge(maximum, c);
    if maximum > 0.0 {
      EdgeLost(maximum, c);
    } else {
      MaxAbsIs(input, 0.0);
      RoundedZero(ScaleFor(0.0, c), c);
    }
    var payload, scales := OneBlockPacked(input, c, blockSize);
    RestoredAt(input, c, blockSize, payload, scales, 1);
    HalfAbove(maximum, (2 * Qmax(c)) as real, budget);
    assert !BackWithin(input, c, blockSize, payload, scales, 1, budget);
  }

  lemma HalfAbove(maximum: real, steps: real, budget: real)
    requires steps > 0.0 && maximum > steps * budget
    ensures maximum / steps > budget
  {
    var h := maximum / steps;
    assert h * steps == maximum;
    assert (h - budget) * steps > 0.0;
    assert h <= budget ==> (h - budget) * steps <= 0.0;
  }

  /** No error is below a negative budget. */
  lemma NegativeUnsafe(c: Codec, maximum: real, budget: real)
    requires c != Fp16 && maximum >= 0.0 && budget < 0.0
    ensures !Safe(c, 1, maximum, budget)
  {
    hide Packed, Readable, Restored, MaxAbs;
    MaxAbsIs([maximum], maximum) by { assert Abs([maximum][0]) == maximum; }
    var payload, scales := OneBlockPacked([maximum], c, 1);
    assert !BackWithin([maximum], c, 1, payload, scales, 0, budget);
  }

  /** Main result: the pages of a greatest magnitude all stay inside the budget exactly when that magnitude is at most
      2 qmax times the budget, or when every value has a block of its own. */
  lemma SafeExactly(c: Codec, blockSize: nat, maximum: real, budget: real)
    requires c != Fp16 && blockSize > 0 && maximum >= 0.0
    ensures Safe(c, blockSize, maximum, budget) <==> (
      maximum <= (2 * Qmax(c)) as real * budget || (blockSize == 1 && budget >= 0.0))
  {
    hide Safe;
    if maximum <= (2 * Qmax(c)) as real * budget {
      BelowIsSafe(c, blockSize, maximum, budget);
    } else if blockSize >= 2 {
      AboveIsUnsafe(c, blockSize, maximum, budget);
    } else if budget >= 0.0 {
      SingletonsSafe(c, maximum, budget);
    } else {
      NegativeUnsafe(c, maximum, budget);
    }
  }
}
