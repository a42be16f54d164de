/** Blockwise quantisation: a scale per block, a signed code per value. */
module Blockwise {
  import opened Common
  import opened Arithmetic
  import opened Bits
  import opened ByteCodes

  type Scale = s: real | s > 0.0 witness 1.0

  datatype Codec = Int2 | Int4 | Int8 | Fp16

  function BitsFor(c: Codec): nat {
    match c case Int2 => 2 case Int4 => 4 case Int8 => 8 case Fp16 => 16
  }

  function Qmax(c: Codec): (q: int)
    ensures q >= 1
  {
    match c case Int2 => 1 case Int4 => 7 case Int8 => 127 case Fp16 => 1
  }

  /** Rounding up to whole bytes and whole blocks, in 32-bit arithmetic. */
  function PackedBytes(c: Codec, count: nat): nat {
    match c
    case Int2 => (count + 3) % UINT32 / 4
    case Int4 => (count + 1) % UINT32 / 2
    case Int8 => count
    case Fp16 => count * 2
  }

  function Blocks(count: nat, blockSize: nat): nat
    requires blockSize > 0
  {
    (count + blockSize - 1) % UINT32 / blockSize
  }

  /** Rounding up to whole blocks does not wrap. */
  predicate Fits(count: nat, blockSize: nat) {
    count + blockSize <= UINT32
  }

  /** Rounding up to whole bytes does not wrap: the payload has room for every code. */
  predicate PayloadFits(c: Codec, count: nat) {
    count < UINT32 && count + 8 / BitsFor(c) <= UINT32
  }

  /** Every value gets a scale exactly when the rounding does not wrap. */
  lemma BlocksCover(count: nat, blockSize: nat)
    requires 0 < count < UINT32 && 0 < blockSize < UINT32
    ensures count <= Blocks(count, blockSize) * blockSize <==> count + blockSize <= UINT32
  {
    var sum := (count + blockSize - 1) % UINT32;
    var n := Blocks(count, blockSize);
    assert n * blockSize + sum % blockSize == sum;
  }

  /** Three values in blocks of 2^32 - 1: the rounding wraps, and there is no block at all. */
  lemma NoBlockLeft()
    ensures Blocks(3, UINT32 - 1) == 0
  {
  }

  /** Every value gets a code exactly when the rounding does not wrap. */
  lemma BytesHold(c: Codec, count: nat)
    requires c != Fp16 && 0 < count < UINT32
    ensures count <= Capacity(PackedBytes(c, count), BitsFor(c)) <==> PayloadFits(c, count)
  {
  }

  /** Not a byte more than the codes need. */
  lemma BytesLeast(c: Codec, count: nat)
    requires c != Fp16 && 0 < count && PayloadFits(c, count)
    ensures PackedBytes(c, count) > 0 && Capacity(PackedBytes(c, count) - 1, BitsFor(c)) < count
  {
  }

  // ---- blocks -------------------------------------------------------------------------------------

  /** b * blockSize, by addition. */
  function Start(b: nat, blockSize: nat): nat {
    if b == 0 then 0 else Start(b - 1, blockSize) + blockSize
  }

  /** i / blockSize, by subtraction. */
  function BlockOf(i: nat, blockSize: nat): nat
    requires blockSize > 0
  {
    if i < blockSize then 0 else BlockOf(i - blockSize, blockSize) + 1
  }

  lemma {:induction false} StartIs(b: nat, blockSize: nat)
    ensures Start(b, blockSize) == b * blockSize
  {
    if b > 0 {
      StartIs(b - 1, blockSize);
      assert b * blockSize == (b - 1) * blockSize + blockSize;
    }
  }

  /** The block of a value is the one that holds it. */
  lemma {:induction false} BlockHolds(i: nat, blockSize: nat)
    requires blockSize > 0
    ensures Start(BlockOf(i, blockSize), blockSize) <= i < Start(BlockOf(i, blockSize), blockSize) + blockSize
  {
    if i >= blockSize {
      BlockHolds(i - blockSize, blockSize);
    }
  }

  lemma BlockOfIs(i: nat, blockSize: nat)
    requires blockSize > 0
    ensures BlockOf(i, blockSize) == i / blockSize
  {
    hide Start, BlockOf;
    BlockHolds(i, blockSize);
    StartIs(BlockOf(i, blockSize), blockSize);
    DivModUnique(i, blockSize, BlockOf(i, blockSize), i - Start(BlockOf(i, blockSize), blockSize));
  }

  lemma {:induction false} StartMonotone(b: nat, n: nat, blockSize: nat)
    requires b <= n
    ensures Start(b, blockSize) <= Start(n, blockSize)
    decreases n
  {
    if b < n {
      StartMonotone(b, n - 1, blockSize);
    }
  }

  /** Blocks do not overlap. */
  lemma InBlock(b: nat, i: nat, blockSize: nat)
    requires blockSize > 0 && Start(b, blockSize) <= i < Start(b, blockSize) + blockSize
    ensures BlockOf(i, blockSize) == b
  {
    hide BlockOf;
    BlockHolds(i, blockSize);
    var k := BlockOf(i, blockSize);
    if k < b {
      StartMonotone(k + 1, b, blockSize);
    } else if b < k {
      StartMonotone(b + 1, k, blockSize);
    }
  }

  /** So many blocks cover the values, and none starts behind them. */
  predicate Covered(count: nat, blockSize: nat, n: nat) {
    count <= Start(n, blockSize) && (n > 0 ==> Start(n - 1, blockSize) < count)
  }

  lemma BlocksCovered(count: nat, blockSize: nat)
    requires blockSize > 0 && Fits(count, blockSize)
    ensures Covered(count, blockSize, Blocks(count, blockSize))
  {
    hide Start;
    var sum := count + blockSize - 1;
    var n := Blocks(count, blockSize);
    assert n == sum / blockSize;
    assert n * blockSize + sum % blockSize == sum;
    StartIs(n, blockSize);
    if n > 0 {
      StartIs(n - 1, blockSize);
      assert (n - 1) * blockSize == n * blockSize - blockSize;
    }
  }

  /** How many of the values the blocks reach. */
  function Reached(count: nat, blockSize: nat): nat
    requires blockSize > 0
  {
    Min(count, Start(Blocks(count, blockSize), blockSize))
  }

  /** Whether or not the number of blocks wrapped, each of them starts before the end and ends within 32 bits. */
  lemma StartBefore(count: nat, blockSize: nat, b: nat)
    requires 0 < count < UINT32 && 0 < blockSize < UINT32 && b < Blocks(count, blockSize)
    ensures Start(b, blockSize) < count && Start(b, blockSize) + blockSize < UINT32
  {
    hide Start;
    var sum, n := (count + blockSize - 1) % UINT32, Blocks(count, blockSize);
    assert n * blockSize + sum % blockSize == sum;
    StartIs(b, blockSize);
    RowInside(b, n, blockSize);
  }

  /** The blocks reach every value exactly when their number did not wrap. */
  lemma ReachedAll(count: nat, blockSize: nat)
    requires 0 < count < UINT32 && 0 < blockSize < UINT32
    ensures Reached(count, blockSize) == count <==> Fits(count, blockSize)
  {
    hide Start, Blocks;
    BlocksCover(count, blockSize);
    StartIs(Blocks(count, blockSize), blockSize);
  }

  lemma BlockInside(count: nat, blockSize: nat, n: nat, i: nat)
    requires blockSize > 0 && Covered(count, blockSize, n) && i < count
    ensures BlockOf(i, blockSize) < n
  {
    hide BlockOf;
    BlockHolds(i, blockSize);
    if BlockOf(i, blockSize) >= n {
      StartMonotone(n, BlockOf(i, blockSize), blockSize);
    }
  }

  // ---- scales -------------------------------------------------------------------------------------

  /** The greatest magnitude, 0 for none. */
  function MaxAbs(s: seq<real>): (m: real)
    ensures m >= 0.0 && forall i :: 0 <= i < |s| ==> Abs(s[i]) <= m
    ensures m == 0.0 || exists i :: 0 <= i < |s| && Abs(s[i]) == m
  {
    if s == [] then 0.0
    else
      var m := MaxAbs(s[..|s| - 1]);
      if Abs(s[|s| - 1]) > m then Abs(s[|s| - 1]) else m
  }

  lemma MaxAbsIs(s: seq<real>, m: real)
    requires m >= 0.0 && forall i :: 0 <= i < |s| ==> Abs(s[i]) <= m
    requires m == 0.0 || exists i :: 0 <= i < |s| && Abs(s[i]) == m
    ensures MaxAbs(s) == m
  {
  }

  function ScaleFor(maximum: real, c: Codec): (scale: Scale)
    requires maximum >= 0.0
    ensures maximum <= Qmax(c) as real * scale
    ensures maximum > 0.0 ==> maximum == Qmax(c) as real * scale
  {
    if maximum > 0.0 then maximum / Qmax(c) as real else 1.0
  }

  /** The values of block b. */
  function Block(input: seq<real>, blockSize: nat, b: nat): (s: seq<real>)
    requires Start(b, blockSize) <= |input|
  {
    input[Start(b, blockSize)..Min(|input|, Start(b, blockSize) + blockSize)]
  }

  // ---- packing ------------------------------------------------------------------------------------

  function Quantized(x: real, scale: Scale, c: Codec): (q: int)
    ensures -Qmax(c) - 1 <= q <= Qmax(c)
  {
    Clamp(RoundEven(x / scale), -Qmax(c) - 1, Qmax(c))
  }

  /** The value as it comes back. */
  function Rounded(x: real, scale: Scale, c: Codec): real {
    Quantized(x, scale, c) as real * scale
  }

  /** A value comes back as the nearest of all the codec can give, an even code where two are as near. */
  lemma NearestCode(x: real, scale: Scale, c: Codec, q: int)
    requires -Qmax(c) - 1 <= q <= Qmax(c)
    ensures Miss(Quantized(x, scale, c) as real, scale, x) <= Miss(q as real, scale, x)
  {
    hide Miss, RoundEven, Clamp, Qmax;
    NearestMultiple(x, scale, RoundEven(x / scale), -Qmax(c) - 1, Qmax(c), q);
  }

  /** Each scale is that of its block. */
  ghost predicate ScaledUpTo(input: seq<real>, c: Codec, blockSize: nat, scales: seq<Scale>) {
    forall b :: 0 <= b < |scales| ==>
      Start(b, blockSize) <= |input| && scales[b] == ScaleFor(MaxAbs(Block(input, blockSize, b)), c)
  }

  /** A scale per block. */
  ghost predicate Scaled(input: seq<real>, c: Codec, blockSize: nat, scales: seq<Scale>) {
    Covered(|input|, blockSize, |scales|) && ScaledUpTo(input, c, blockSize, scales)
  }

  /** A code for each of the first values, and nothing in the other bits. */
  ghost predicate CodedUpTo(input: seq<real>, c: Codec, blockSize: nat, payload: seq<Byte>, scales: seq<Scale>,
                            done: nat)
    requires c != Fp16 && blockSize > 0
  {
    var w := BitsFor(c);
    && done <= |input| <= Capacity(|payload|, w)
    && (forall i :: 0 <= i < done ==> BlockOf(i, blockSize) < |scales|)
    && (forall i :: 0 <= i < done ==>
          Code(payload, i, w) == FromNat(Quantized(input[i], scales[BlockOf(i, blockSize)], c), w))
    && (forall i :: done <= i < Capacity(|payload|, w) ==> Code(payload, i, w) == Zeros(w))
  }

  ghost predicate Coded(input: seq<real>, c: Codec, blockSize: nat, payload: seq<Byte>, scales: seq<Scale>)
    requires c != Fp16 && blockSize > 0
  {
    CodedUpTo(input, c, blockSize, payload, scales, |input|)
  }

  /** What packing makes of its input. */
  ghost predicate Packed(input: seq<real>, c: Codec, blockSize: nat, payload: seq<Byte>, scales: seq<Scale>)
    requires c != Fp16 && blockSize > 0
  {
    && |payload| == PackedBytes(c, |input|)
    && Scaled(input, c, blockSize, scales)
    && Coded(input, c, blockSize, payload, scales)
  }

  lemma MaxAbsNone()
    ensures MaxAbs([]) == 0.0
  {
  }

  lemma MaxAbsNext(s: seq<real>, x: real)
    ensures MaxAbs(s + [x]) == if Abs(x) > MaxAbs(s) then Abs(x) else MaxAbs(s)
  {
    assert (s + [x])[..|s|] == s;
  }

  method BlockMaximum(input: seq<real>, start: nat, end: nat) returns (maximum: real)
    requires start <= end <= |input|
    ensures maximum == MaxAbs(input[start..end])
  {
    hide MaxAbs;
    maximum := 0.0;
    MaxAbsNone();
    assert input[start..start] == [];
    for i := start to end
      invariant maximum == MaxAbs(input[start..i])
    {
      MaxAbsNext(input[start..i], input[i]);
      assert input[start..i + 1] == input[start..i] + [input[i]];
      maximum := if Abs(input[i]) > maximum then Abs(input[i]) else maximum;
    }
  }

  /** Quantises one block into clear codes. */
  method PackBlock(input: seq<real>, c: Codec, start: nat, end: nat, scale: Scale, clear: seq<Byte>)
    returns (payload: seq<Byte>)
    requires c != Fp16 && start <= end <= |input| <= Capacity(|clear|, BitsFor(c))
    requires forall i :: start <= i < end ==> Code(clear, i, BitsFor(c)) == Zeros(BitsFor(c))
    ensures |payload| == |clear|
    ensures forall i :: start <= i < end ==>
      Code(payload, i, BitsFor(c)) == FromNat(Quantized(input[i], scale, c), BitsFor(c))
    ensures forall i :: 0 <= i < Capacity(|clear|, BitsFor(c)) && !(start <= i < end) ==>
      Code(payload, i, BitsFor(c)) == Code(clear, i, BitsFor(c))
  {
    hide Code, Capacity, Quantized, FromNat, PutCode;
    var w := BitsFor(c);
    payload := clear;
    for i := start to end
      invariant |payload| == |clear|
      invariant forall j :: start <= j < i ==> Code(payload, j, w) == FromNat(Quantized(input[j], scale, c), w)
      invariant forall j :: 0 <= j < Capacity(|clear|, w) && !(start <= j < i) ==>
        Code(payload, j, w) == Code(clear, j, w)
    {
      var quantized := Clamp(RoundEven(input[i] / scale), -Qmax(c) - 1, Qmax(c));
      QuantizedIs(input[i], scale, c);
      forall j | 0 <= j < Capacity(|clear|, w)
        ensures Code(PutCode(payload, i, quantized, w), j, w)
             == if i == j then FromNat(quantized, w) else Code(payload, j, w)
      {
        PutCodeIs(payload, i, quantized, w, j);
      }
      payload := PutCode(payload, i, quantized, w);
    }
  }

  lemma QuantizedIs(x: real, scale: Scale, c: Codec)
    ensures Quantized(x, scale, c) == Clamp(RoundEven(x / scale), -Qmax(c) - 1, Qmax(c))
  {
  }

  lemma ClearCodes(bytes: nat, i: nat, w: nat)
    requires IsWidth(w) && i < Capacity(bytes, w)
    ensures Code(seq(bytes, _ => Zeros(8)), i, w) == Zeros(w)
  {
  }

  /** One more block: its scale and its codes. */
  lemma CodedNext(input: seq<real>, c: Codec, blockSize: nat, before: seq<Byte>, after: seq<Byte>, scales: seq<Scale>,
                  scale: Scale)
    requires c != Fp16 && blockSize > 0 && Start(|scales|, blockSize) < |input|
    requires CodedUpTo(input, c, blockSize, before, scales, Start(|scales|, blockSize)) && |after| == |before|
    requires var start, end := Start(|scales|, blockSize), Min(|input|, Start(|scales|, blockSize) + blockSize);
             && (forall i :: start <= i < end ==>
                 Code(after, i, BitsFor(c)) == FromNat(Quantized(input[i], scale, c), BitsFor(c)))
             && (forall i :: 0 <= i < Capacity(|after|, BitsFor(c)) && !(start <= i < end) ==>
                   Code(after, i, BitsFor(c)) == Code(before, i, BitsFor(c)))
    ensures CodedUpTo(input, c, blockSize, after, scales + [scale], Min(|input|, Start(|scales| + 1, blockSize)))
  {
    hide Code, Capacity, Quantized, FromNat, Start, BlockOf;
    BlockRange(|input|, blockSize, |scales|);
    BlockIs(input, blockSize, |scales|);
  }

  lemma ScaledNext(input: seq<real>, c: Codec, blockSize: nat, scales: seq<Scale>, scale: Scale)
    requires ScaledUpTo(input, c, blockSize, scales) && Start(|scales|, blockSize) <= |input|
    requires scale == ScaleFor(MaxAbs(Block(input, blockSize, |scales|)), c)
    ensures ScaledUpTo(input, c, blockSize, scales + [scale])
  {
    hide ScaleFor, MaxAbs, Block, Start;
  }

  /** Packs the values the blocks reach.  All of them are packed exactly when the number of blocks does not wrap. */
  method Pack(input: seq<real>, c: Codec, blockSize: nat) returns (payload: seq<Byte>, scales: seq<Scale>)
    requires c != Fp16 && 0 < blockSize < UINT32 && input != [] && PayloadFits(c, |input|)
    ensures |payload| == PackedBytes(c, |input|) && |scales| == Blocks(|input|, blockSize)
    ensures ScaledUpTo(input, c, blockSize, scales)
    ensures CodedUpTo(input, c, blockSize, payload, scales, Reached(|input|, blockSize))
    ensures Packed(input, c, blockSize, payload, scales) <==> Fits(|input|, blockSize)
  {
    hide Code, Capacity, Quantized, FromNat, MaxAbs, PackedBytes, Blocks, Start, BlockOf, Block, Covered, ScaledUpTo,
         CodedUpTo, Packed, Fits;
    var count, n := |input|, Blocks(|input|, blockSize);
    BytesHold(c, count);
    payload := seq(PackedBytes(c, count), _ => Zeros(8));
    scales := [];
    NothingPacked(input, c, blockSize);
    for b := 0 to n
      invariant |scales| == b && |payload| == PackedBytes(c, count)
      invariant ScaledUpTo(input, c, blockSize, scales)
      invariant CodedUpTo(input, c, blockSize, payload, scales, Min(count, Start(b, blockSize)))
    {
      BlockBounds(count, blockSize, b);
      ClearAhead(input, c, blockSize, payload, scales);
      BlockIs(input, blockSize, b);
      var start, end := b * blockSize, Min(count, (b * blockSize + blockSize) % UINT32);
      var maximum := BlockMaximum(input, start, end);
      var scale: Scale := if maximum > 0.0 then maximum / Qmax(c) as real else 1.0;
      var next := PackBlock(input, c, start, end, scale, payload);
      CodedNext(input, c, blockSize, payload, next, scales, scale);
      ScaledNext(input, c, blockSize, scales, scale);
      payload, scales := next, scales + [scale];
    }
    PackedExactly(input, c, blockSize, payload, scales);
  }

  /** The bounds of a block, as they are computed in 32 bits. */
  lemma BlockBounds(count: nat, blockSize: nat, b: nat)
    requires 0 < count < UINT32 && 0 < blockSize < UINT32 && b < Blocks(count, blockSize)
    ensures b * blockSize == Start(b, blockSize) < count && Min(count, Start(b, blockSize)) == Start(b, blockSize)
    ensures (b * blockSize + blockSize) % UINT32 == Start(b, blockSize) + blockSize
  {
    hide Start, Blocks;
    StartBefore(count, blockSize, b);
    StartIs(b, blockSize);
  }

  /** Codes not yet written are clear. */
  lemma ClearAhead(input: seq<real>, c: Codec, blockSize: nat, payload: seq<Byte>, scales: seq<Scale>)
    requires c != Fp16 && blockSize > 0 && Start(|scales|, blockSize) <= |input|
    requires CodedUpTo(input, c, blockSize, payload, scales, Start(|scales|, blockSize))
    ensures |input| <= Capacity(|payload|, BitsFor(c))
    ensures forall i :: Start(|scales|, blockSize) <= i < |input| ==> Code(payload, i, BitsFor(c)) == Zeros(BitsFor(c))
  {
    hide Code, Capacity, Start, Quantized, FromNat, BlockOf;
  }

  lemma PackedExactly(input: seq<real>, c: Codec, blockSize: nat, payload: seq<Byte>, scales: seq<Scale>)
    requires c != Fp16 && 0 < blockSize < UINT32 && 0 < |input| < UINT32
    requires |payload| == PackedBytes(c, |input|) && |scales| == Blocks(|input|, blockSize)
    requires ScaledUpTo(input, c, blockSize, scales)
    requires CodedUpTo(input, c, blockSize, payload, scales, Reached(|input|, blockSize))
    ensures Packed(input, c, blockSize, payload, scales) <==> Fits(|input|, blockSize)
  {
    hide ScaledUpTo, CodedUpTo, PackedBytes, Blocks, Start;
    ReachedAll(|input|, blockSize);
    CoveredAll(|input|, blockSize, |scales|);
    if Fits(|input|, blockSize) {
      BlocksCovered(|input|, blockSize);
    }
  }

  lemma NothingPacked(input: seq<real>, c: Codec, blockSize: nat)
    requires c != Fp16 && blockSize > 0 && |input| <= Capacity(PackedBytes(c, |input|), BitsFor(c))
    ensures Start(0, blockSize) == 0 && ScaledUpTo(input, c, blockSize, [])
    ensures CodedUpTo(input, c, blockSize, seq(PackedBytes(c, |input|), _ => Zeros(8)), [], 0)
  {
    hide Code, Capacity, PackedBytes;
    var payload: seq<Byte> := seq(PackedBytes(c, |input|), _ => Zeros(8));
    forall i | 0 <= i < Capacity(|payload|, BitsFor(c))
      ensures Code(payload, i, BitsFor(c)) == Zeros(BitsFor(c))
    {
      ClearCodes(PackedBytes(c, |input|), i, BitsFor(c));
    }
  }

  lemma BlockIs(input: seq<real>, blockSize: nat, b: nat)
    requires Start(b, blockSize) <= |input|
    ensures Block(input, blockSize, b) == input[Start(b, blockSize)..Min(|input|, Start(b, blockSize) + blockSize)]
    ensures Start(b + 1, blockSize) == Start(b, blockSize) + blockSize
  {
  }

  lemma BlockRange(count: nat, blockSize: nat, b: nat)
    requires blockSize > 0
    ensures forall i :: Start(b, blockSize) <= i < Min(count, Start(b, blockSize) + blockSize) ==>
      BlockOf(i, blockSize) == b
  {
    hide BlockOf, Start;
    forall i | Start(b, blockSize) <= i < Min(count, Start(b, blockSize) + blockSize)
      ensures BlockOf(i, blockSize) == b
    {
      InBlock(b, i, blockSize);
    }
  }

  lemma CoveredAll(count: nat, blockSize: nat, n: nat)
    ensures Covered(count, blockSize, n) ==> count <= Start(n, blockSize)
  {
  }

  // ---- unpacking ----------------------------------------------------------------------------------

  /** There is a code and a scale for every value. */
  predicate Readable(payload: seq<Byte>, scales: seq<Scale>, count: nat, c: Codec, blockSize: nat)
    requires c != Fp16 && blockSize > 0
  {
    && count <= Capacity(|payload|, BitsFor(c))
    && forall i :: 0 <= i < count ==> BlockOf(i, blockSize) < |scales|
  }

  function Reading(payload: seq<Byte>, scales: seq<Scale>, i: nat, c: Codec, blockSize: nat): real
    requires c != Fp16 && blockSize > 0 && i < Capacity(|payload|, BitsFor(c)) && BlockOf(i, blockSize) < |scales|
  {
    ReadCode(payload, i, BitsFor(c)) as real * scales[BlockOf(i, blockSize)]
  }

  function Restored(payload: seq<Byte>, scales: seq<Scale>, count: nat, c: Codec, blockSize: nat): (r: seq<real>)
    requires c != Fp16 && blockSize > 0 && Readable(payload, scales, count, c, blockSize)
    ensures |r| == count && forall i :: 0 <= i < count ==> r[i] == Reading(payload, scales, i, c, blockSize)
  {
    seq(count, i requires 0 <= i < count => Reading(payload, scales, i, c, blockSize))
  }

  method Unpack(payload: seq<Byte>, scales: seq<Scale>, count: nat, c: Codec, blockSize: nat)
    returns (output: seq<real>)
    requires c != Fp16 && blockSize > 0 && Readable(payload, scales, count, c, blockSize)
    ensures output == Restored(payload, scales, count, c, blockSize)
  {
    hide ReadCode, Capacity;
    ghost var all := Restored(payload, scales, count, c, blockSize);
    output := [];
    for i := 0 to count
      invariant output == all[..i]
    {
      BlockOfIs(i, blockSize);
      output := output + [ReadCode(payload, i, BitsFor(c)) as real * scales[i / blockSize]];
      assert all[i] == Reading(payload, scales, i, c, blockSize) == output[i];
    }
  }

  lemma PackedReadable(input: seq<real>, c: Codec, blockSize: nat, payload: seq<Byte>, scales: seq<Scale>)
    requires c != Fp16 && blockSize > 0 && Packed(input, c, blockSize, payload, scales)
    ensures Readable(payload, scales, |input|, c, blockSize)
  {
    hide Scaled;
  }

  // ---- what comes back ------------------------------------------------------------------------------

  /** Code i is read back as the quantised value. */
  lemma ReadCoded(input: seq<real>, c: Codec, blockSize: nat, payload: seq<Byte>, scales: seq<Scale>, i: nat)
    requires c != Fp16 && blockSize > 0 && Coded(input, c, blockSize, payload, scales) && i < |input|
    ensures ReadCode(payload, i, BitsFor(c)) == Quantized(input[i], scales[BlockOf(i, blockSize)], c)
  {
    hide Code, Capacity, Quantized, FromNat, ToNat, ReadCode;
    ReadCodeIs(payload, i, BitsFor(c));
    QuantizedFits(input[i], scales[BlockOf(i, blockSize)], c);
    SignedCode(Quantized(input[i], scales[BlockOf(i, blockSize)], c), BitsFor(c));
  }

  lemma QuantizedFits(x: real, scale: Scale, c: Codec)
    requires c != Fp16
    ensures -HalfRange(BitsFor(c)) <= Quantized(x, scale, c) < HalfRange(BitsFor(c))
  {
  }

  /** What comes back for value i. */
  lemma RestoredAt(input: seq<real>, c: Codec, blockSize: nat, payload: seq<Byte>, scales: seq<Scale>, i: nat)
    requires c != Fp16 && blockSize > 0 && Packed(input, c, blockSize, payload, scales) && i < |input|
    ensures Readable(payload, scales, |input|, c, blockSize) && BlockOf(i, blockSize) < |scales|
    ensures Restored(payload, scales, |input|, c, blockSize)[i] == Rounded(input[i], scales[BlockOf(i, blockSize)], c)
  {
    hide Scaled, Coded, Quantized, ReadCode, PackedBytes;
    PackedReadable(input, c, blockSize, payload, scales);
    ReadCoded(input, c, blockSize, payload, scales, i);
  }

  /** A value the scale covers is not clamped, so quantising moves it by at most half the scale. */
  lemma QuantizedNear(x: real, scale: Scale, c: Codec)
    requires Abs(x) <= Qmax(c) as real * scale
    ensures Abs(Rounded(x, scale, c) - x) <= scale / 2.0
    ensures -Qmax(c) <= Quantized(x, scale, c) <= Qmax(c)
  {
    hide Abs, RoundEven;
    DividesInto(x, scale, Qmax(c) as real);
    RoundEvenWithin(x / scale, -Qmax(c), Qmax(c));
    ScaledBack(x, scale, RoundEven(x / scale));
  }

  lemma InBlockAt(input: seq<real>, blockSize: nat, i: nat)
    requires blockSize > 0 && i < |input|
    ensures var start := Start(BlockOf(i, blockSize), blockSize);
            && start <= i && i - start < |Block(input, blockSize, BlockOf(i, blockSize))|
            && Block(input, blockSize, BlockOf(i, blockSize))[i - start] == input[i]
  {
    hide Start, BlockOf;
    BlockHolds(i, blockSize);
    BlockIs(input, blockSize, BlockOf(i, blockSize));
  }

  lemma WithinBlock(block: seq<real>, k: nat, c: Codec)
    requires k < |block|
    ensures Abs(block[k]) <= Qmax(c) as real * ScaleFor(MaxAbs(block), c)
  {
    hide Abs, MaxAbs;
  }

  lemma ScaledAt(input: seq<real>, c: Codec, blockSize: nat, scales: seq<Scale>, b: nat)
    requires Scaled(input, c, blockSize, scales) && b < |scales|
    ensures Start(b, blockSize) <= |input| && scales[b] == ScaleFor(MaxAbs(Block(input, blockSize, b)), c)
    ensures Covered(|input|, blockSize, |scales|)
  {
    hide MaxAbs, ScaleFor, Block, Start, Covered;
  }

  /** The scale of a value's block covers it. */
  lemma ScaleCovers(input: seq<real>, c: Codec, blockSize: nat, scales: seq<Scale>, i: nat)
    requires blockSize > 0 && i < |input| && Scaled(input, c, blockSize, scales)
    ensures BlockOf(i, blockSize) < |scales| && Abs(input[i]) <= Qmax(c) as real * scales[BlockOf(i, blockSize)]
  {
    hide MaxAbs, Abs, Start, BlockOf, Covered, ScaleFor, Block, Scaled;
    var b := BlockOf(i, blockSize);
    ScaledSome(input, c, blockSize, scales);
    ScaledAt(input, c, blockSize, scales, 0);
    BlockInside(|input|, blockSize, |scales|, i);
    ScaledAt(input, c, blockSize, scales, b);
    InBlockAt(input, blockSize, i);
    WithinBlock(Block(input, blockSize, b), i - Start(b, blockSize), c);
  }

  lemma ScaledSome(input: seq<real>, c: Codec, blockSize: nat, scales: seq<Scale>)
    requires Scaled(input, c, blockSize, scales) && input != []
    ensures scales != []
  {
  }

  /** Main result: unpacking gives every value back to within half the scale of its block. */
  lemma ErrorBound(input: seq<real>, c: Codec, blockSize: nat, payload: seq<Byte>, scales: seq<Scale>, i: nat)
    requires c != Fp16 && blockSize > 0 && Packed(input, c, blockSize, payload, scales) && i < |input|
    ensures Readable(payload, scales, |input|, c, blockSize) && BlockOf(i, blockSize) < |scales|
    ensures Abs(Restored(payload, scales, |input|, c, blockSize)[i] - input[i]) <= scales[BlockOf(i, blockSize)] / 2.0
  {
    hide Scaled, Coded, Quantized, Rounded, ReadCode, Abs, PackedBytes, Restored, Readable, BlockOf;
    RestoredAt(input, c, blockSize, payload, scales, i);
    ScaleCovers(input, c, blockSize, scales, i);
    QuantizedNear(input[i], scales[BlockOf(i, blockSize)], c);
  }

  /** No block has a greater magnitude than the whole. */
  lemma BlockBelow(input: seq<real>, blockSize: nat, b: nat)
    requires Start(b, blockSize) <= |input|
    ensures MaxAbs(Block(input, blockSize, b)) <= MaxAbs(input)
  {
    hide MaxAbs, Abs, Start;
    var block := Block(input, blockSize, b);
    if MaxAbs(block) > 0.0 {
      var i :| 0 <= i < |block| && Abs(block[i]) == MaxAbs(block);
      assert block[i] == input[Start(b, blockSize) + i];
    }
  }

  /** No scale is larger than the greatest magnitude of the input needs, unless its block is all zero. */
  lemma ScaleBound(input: seq<real>, c: Codec, blockSize: nat, scales: seq<Scale>, b: nat)
    requires Scaled(input, c, blockSize, scales) && b < |scales| && Start(b, blockSize) <= |input|
    ensures MaxAbs(Block(input, blockSize, b)) > 0.0 ==> Qmax(c) as real * scales[b] <= MaxAbs(input)
  {
    hide MaxAbs, Scaled, Start, Block;
    ScaledAt(input, c, blockSize, scales, b);
    BlockBelow(input, blockSize, b);
  }

  /** The error is at most the greatest magnitude over twice the greatest code. */
  ghost predicate HalfStep(error: real, c: Codec, maximum: real) {
    Qmax(c) as real * (2.0 * error) <= maximum
  }

  /** Main result: over a whole page, unpacking errs by at most half a step of the greatest magnitude. */
  lemma PageError(input: seq<real>, c: Codec, blockSize: nat, payload: seq<Byte>, scales: seq<Scale>, i: nat)
    requires c != Fp16 && blockSize > 0 && Packed(input, c, blockSize, payload, scales) && i < |input|
    ensures Readable(payload, scales, |input|, c, blockSize)
    ensures HalfStep(Abs(Restored(payload, scales, |input|, c, blockSize)[i] - input[i]), c, MaxAbs(input))
  {
    hide Scaled, Coded, Quantized, ReadCode, Abs, PackedBytes, MaxAbs, Start, BlockOf;
    ErrorBound(input, c, blockSize, payload, scales, i);
    var b, error := BlockOf(i, blockSize), Abs(Restored(payload, scales, |input|, c, blockSize)[i] - input[i]);
    BlockHolds(i, blockSize);
    ScaleBound(input, c, blockSize, scales, b);
    if MaxAbs(Block(input, blockSize, b)) > 0.0 {
      assert Qmax(c) as real * (2.0 * error) <= Qmax(c) as real * scales[b];
    } else {
      ZeroBlock(input, c, blockSize, payload, scales, i);
    }
  }

  lemma RoundedZero(scale: Scale, c: Codec)
    ensures Rounded(0.0, scale, c) == 0.0
  {
  }

  /** A block of zeros comes back as zeros. */
  lemma ZeroBlock(input: seq<real>, c: Codec, blockSize: nat, payload: seq<Byte>, scales: seq<Scale>, i: nat)
    requires c != Fp16 && blockSize > 0 && Packed(input, c, blockSize, payload, scales) && i < |input|
    requires Start(BlockOf(i, blockSize), blockSize) <= |input|
    requires MaxAbs(Block(input, blockSize, BlockOf(i, blockSize))) == 0.0
    ensures input[i] == 0.0 && Readable(payload, scales, |input|, c, blockSize)
    ensures Restored(payload, scales, |input|, c, blockSize)[i] == 0.0
  {
    hide Scaled, Quantized, Rounded, ReadCode, PackedBytes, MaxAbs, Start, BlockOf, Coded;
    InBlockAt(input, blockSize, i);
    RestoredAt(input, c, blockSize, payload, scales, i);
    RoundedZero(scales[BlockOf(i, blockSize)], c);
  }
}
