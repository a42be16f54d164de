/** Encoding what was decoded: a fixed point. */
module Recompression {
  import opened Arithmetic
  import opened Bits
  import opened Blockwise
  import opened ByteCodes

  lemma Divides(q: int, scale: Scale)
    ensures (q as real * scale) / scale == q as real
  {
    var p := q as real * scale;
    assert (p / scale - q as real) * scale == 0.0;
  }

  /** A multiple of the scale within the code range is quantised to the multiplier. */
  lemma QuantizedAgain(q: int, scale: Scale, c: Codec)
    requires -Qmax(c) <= q <= Qmax(c)
    ensures Quantized(q as real * scale, scale, c) == q
  {
    hide Abs;
    Divides(q, scale);
    RoundEvenInteger(q);
  }

  lemma ScaledMagnitude(q: int, bound: int, scale: Scale)
    requires -bound <= q <= bound
    ensures Abs(q as real * scale) <= bound as real * scale
    ensures q == bound || q == -bound ==> Abs(q as real * scale) == bound as real * scale
  {
    assert bound as real * scale - q as real * scale == (bound - q) as real * scale;
    assert bound as real * scale + q as real * scale == (bound + q) as real * scale;
  }

  /** Rounding what was rounded changes nothing. */
  lemma RoundedAgain(x: real, scale: Scale, c: Codec)
    requires Abs(x) <= Qmax(c) as real * scale
    ensures Quantized(Rounded(x, scale, c), scale, c) == Quantized(x, scale, c)
  {
    hide Quantized, Abs;
    QuantizedNear(x, scale, c);
    var q := Quantized(x, scale, c);
    assert Rounded(x, scale, c) == q as real * scale;
    QuantizedAgain(q, scale, c);
  }

  /** A value at the edge of its scale keeps its magnitude; no other exceeds it. */
  lemma RoundedMagnitude(x: real, scale: Scale, c: Codec)
    requires Abs(x) <= Qmax(c) as real * scale
    ensures Abs(Rounded(x, scale, c)) <= Qmax(c) as real * scale
    ensures Abs(x) == Qmax(c) as real * scale ==> Abs(Rounded(x, scale, c)) == Abs(x)
  {
    hide Quantized;
    QuantizedNear(x, scale, c);
    ScaledMagnitude(Quantized(x, scale, c), Qmax(c), scale);
    if Abs(x) == Qmax(c) as real * scale {
      QuantizedAgain(Qmax(c), scale, c);
      QuantizedAgain(-Qmax(c), scale, c);
      assert x == Qmax(c) as real * scale || x == (-Qmax(c)) as real * scale;
    }
  }

  /** What comes back for a value of block b. */
  lemma RestoredInBlock(input: seq<real>, c: Codec, blockSize: nat, payload: seq<Byte>, scales: seq<Scale>, b: nat,
                        k: nat)
    requires c != Fp16 && blockSize > 0 && Packed(input, c, blockSize, payload, scales) && b < |scales|
    requires Start(b, blockSize) <= |input| && k < |Block(input, blockSize, b)|
    ensures Readable(payload, scales, |input|, c, blockSize)
    ensures var output := Restored(payload, scales, |input|, c, blockSize);
            && |Block(output, blockSize, b)| == |Block(input, blockSize, b)|
            && Block(output, blockSize, b)[k] == Rounded(Block(input, blockSize, b)[k], scales[b], c)
  {
    hide Start, BlockOf, Packed, Rounded, Restored, Readable;
    var i := Start(b, blockSize) + k;
    InBlock(b, i, blockSize);
    RestoredAt(input, c, blockSize, payload, scales, i);
  }

  /** The greatest magnitude of a block survives the round trip. */
  lemma BlockMagnitude(input: seq<real>, c: Codec, blockSize: nat, payload: seq<Byte>, scales: seq<Scale>, b: nat)
    requires c != Fp16 && blockSize > 0 && Packed(input, c, blockSize, payload, scales) && b < |scales|
    ensures Start(b, blockSize) <= |input| && Readable(payload, scales, |input|, c, blockSize)
    ensures MaxAbs(Block(Restored(payload, scales, |input|, c, blockSize), blockSize, b))
         == MaxAbs(Block(input, blockSize, b))
  {
    hide Start, BlockOf, Scaled, Coded, Rounded, Restored, Readable, Block, MaxAbs, Abs, PackedBytes, ScaleFor;
    ScaledAt(input, c, blockSize, scales, b);
    PackedReadable(input, c, blockSize, payload, scales);
    var before := Block(input, blockSize, b);
    var after := Block(Restored(payload, scales, |input|, c, blockSize), blockSize, b);
    BlockLength(input, Restored(payload, scales, |input|, c, blockSize), blockSize, b);
    forall k | 0 <= k < |before|
      ensures after[k] == Rounded(before[k], scales[b], c)
    {
      RestoredInBlock(input, c, blockSize, payload, scales, b, k);
    }
    SameMagnitude(before, after, scales[b], c);
  }

  lemma BlockLength(a: seq<real>, b: seq<real>, blockSize: nat, k: nat)
    requires |a| == |b| && Start(k, blockSize) <= |a|
    ensures |Block(a, blockSize, k)| == |Block(b, blockSize, k)|
  {
    hide Start;
    BlockIs(a, blockSize, k);
    BlockIs(b, blockSize, k);
  }

  lemma SameMagnitude(before: seq<real>, after: seq<real>, scale: Scale, c: Codec)
    requires scale == ScaleFor(MaxAbs(before), c) && |after| == |before|
    requires forall k :: 0 <= k < |before| ==> after[k] == Rounded(before[k], scale, c)
    ensures MaxAbs(after) == MaxAbs(before)
  {
    hide Rounded, Abs, MaxAbs;
    if MaxAbs(before) == 0.0 {
      forall k | 0 <= k < |after|
        ensures after[k] == 0.0
      {
        ZeroMagnitude(before, k);
        RoundedZero(scale, c);
      }
      ZerosMagnitude(after);
    } else {
      forall k | 0 <= k < |after|
        ensures Abs(after[k]) <= MaxAbs(before)
      {
        RoundedMagnitude(before[k], scale, c);
      }
      var k :| 0 <= k < |before| && Abs(before[k]) == MaxAbs(before);
      RoundedMagnitude(before[k], scale, c);
      MaxAbsIs(after, MaxAbs(before));
    }
  }

  lemma ZeroMagnitude(s: seq<real>, k: nat)
    requires MaxAbs(s) == 0.0 && k < |s|
    ensures s[k] == 0.0
  {
  }

  lemma ZerosMagnitude(s: seq<real>)
    requires forall k :: 0 <= k < |s| ==> s[k] == 0.0
    ensures MaxAbs(s) == 0.0
  {
    MaxAbsIs(s, 0.0);
  }

  lemma CoveredOnce(count: nat, blockSize: nat, m: nat, n: nat)
    requires count > 0 && Covered(count, blockSize, m) && Covered(count, blockSize, n)
    ensures m == n
  {
    if m < n {
      StartMonotone(m, n - 1, blockSize);
    } else if n < m {
      StartMonotone(n, m - 1, blockSize);
    }
  }

  lemma SameScales(input: seq<real>, c: Codec, blockSize: nat, payload: seq<Byte>, scales: seq<Scale>,
                   again: seq<Scale>)
    requires c != Fp16 && blockSize > 0 && input != [] && Packed(input, c, blockSize, payload, scales)
    requires Readable(payload, scales, |input|, c, blockSize)
    requires Scaled(Restored(payload, scales, |input|, c, blockSize), c, blockSize, again)
    ensures again == scales
  {
    hide Start, BlockOf, Coded, Restored, Readable, Block, MaxAbs, PackedBytes, ScaleFor, Covered, ScaledUpTo;
    var output := Restored(payload, scales, |input|, c, blockSize);
    CoveredOnce(|input|, blockSize, |scales|, |again|);
    forall b | 0 <= b < |scales|
      ensures again[b] == scales[b]
    {
      ScaledAt(input, c, blockSize, scales, b);
      ScaledAt(output, c, blockSize, again, b);
      BlockMagnitude(input, c, blockSize, payload, scales, b);
    }
  }

  lemma CodedAt(input: seq<real>, c: Codec, blockSize: nat, payload: seq<Byte>, scales: seq<Scale>, i: nat)
    requires c != Fp16 && blockSize > 0 && Coded(input, c, blockSize, payload, scales)
    requires i < Capacity(|payload|, BitsFor(c))
    ensures |input| <= Capacity(|payload|, BitsFor(c)) && (i < |input| ==> BlockOf(i, blockSize) < |scales|)
    ensures Code(payload, i, BitsFor(c)) == if i < |input|
      then FromNat(Quantized(input[i], scales[BlockOf(i, blockSize)], c), BitsFor(c)) else Zeros(BitsFor(c))
  {
    hide Code, Capacity, Quantized, FromNat;
  }

  lemma SameCode(input: seq<real>, c: Codec, blockSize: nat, payload: seq<Byte>, again: seq<Byte>, scales: seq<Scale>,
                 i: nat)
    requires c != Fp16 && blockSize > 0 && Packed(input, c, blockSize, payload, scales)
    requires Readable(payload, scales, |input|, c, blockSize)
    requires Coded(Restored(payload, scales, |input|, c, blockSize), c, blockSize, again, scales)
    requires |again| == |payload| && i < Capacity(|payload|, BitsFor(c))
    ensures Code(again, i, BitsFor(c)) == Code(payload, i, BitsFor(c))
  {
    hide BlockOf, Coded, Restored, Readable, PackedBytes, Code, Capacity, Quantized, Rounded, Scaled, Abs;
    CodedAt(input, c, blockSize, payload, scales, i);
    CodedAt(Restored(payload, scales, |input|, c, blockSize), c, blockSize, again, scales, i);
    if i < |input| {
      RestoredAt(input, c, blockSize, payload, scales, i);
      ScaleCovers(input, c, blockSize, scales, i);
      RoundedAgain(input[i], scales[BlockOf(i, blockSize)], c);
    }
  }

  /** Main result: packing what was unpacked, with the same codec and block size, gives the same page. */
  lemma RepackSame(input: seq<real>, c: Codec, blockSize: nat, payload: seq<Byte>, scales: seq<Scale>,
                   payload': seq<Byte>, scales': seq<Scale>)
    requires c != Fp16 && blockSize > 0 && input != [] && Packed(input, c, blockSize, payload, scales)
    requires Readable(payload, scales, |input|, c, blockSize)
    requires Packed(Restored(payload, scales, |input|, c, blockSize), c, blockSize, payload', scales')
    ensures payload' == payload && scales' == scales
  {
    hide Scaled, Coded, Restored, Readable, Code, Capacity;
    SameScales(input, c, blockSize, payload, scales, scales');
    forall i | 0 <= i < Capacity(|payload|, BitsFor(c))
      ensures Code(payload', i, BitsFor(c)) == Code(payload, i, BitsFor(c))
    {
      SameCode(input, c, blockSize, payload, payload', scales, i);
    }
    SamePayload(payload', payload, BitsFor(c));
  }

  lemma BlockReaches(input: seq<real>, blockSize: nat, i: nat)
    requires blockSize > 0 && i < |input|
    ensures Start(BlockOf(i, blockSize), blockSize) <= |input|
    ensures Abs(input[i]) <= MaxAbs(Block(input, blockSize, BlockOf(i, blockSize))) <= MaxAbs(input)
  {
    hide Start, BlockOf, Abs, MaxAbs, Block;
    InBlockAt(input, blockSize, i);
    BlockBelow(input, blockSize, BlockOf(i, blockSize));
  }

  /** The greatest magnitude of a page survives the round trip. */
  lemma PageMagnitude(input: seq<real>, c: Codec, blockSize: nat, payload: seq<Byte>, scales: seq<Scale>)
    requires c != Fp16 && blockSize > 0 && Packed(input, c, blockSize, payload, scales)
    requires Readable(payload, scales, |input|, c, blockSize)
    ensures MaxAbs(Restored(payload, scales, |input|, c, blockSize)) == MaxAbs(input)
  {
    hide Start, BlockOf, Scaled, Coded, Restored, Readable, Block, MaxAbs, Abs, PackedBytes;
    var output := Restored(payload, scales, |input|, c, blockSize);
    forall i | 0 <= i < |input|
      ensures Abs(output[i]) <= MaxAbs(input) && Abs(input[i]) <= MaxAbs(output)
    {
      BlockReaches(input, blockSize, i);
      BlockReaches(output, blockSize, i);
      ScaleCovers(input, c, blockSize, scales, i);
      BlockMagnitude(input, c, blockSize, payload, scales, BlockOf(i, blockSize));
    }
    SameMaximum(input, output);
  }

  lemma SameMaximum(a: seq<real>, b: seq<real>)
    requires |a| == |b|
    requires forall i :: 0 <= i < |a| ==> Abs(b[i]) <= MaxAbs(a) && Abs(a[i]) <= MaxAbs(b)
    ensures MaxAbs(a) == MaxAbs(b)
  {
    hide Abs, MaxAbs;
  }
}
