/** The adaptive page codec: choosing a width, encoding, decoding and recompressing pages. */
module AdaptiveCompression {
  import opened Common
  import opened Arithmetic
  import opened Bits
  import opened Blockwise
  import opened ByteCodes
  import opened Recompression

  datatype Policy = FixedInt4 | QualityBudget | MemoryBudget | Hybrid

  datatype Config = Config(policy: Policy, minBits: nat, maxBits: nat, blockSize: nat, maxPageError: real)

  datatype Stream =
    | Quantised(codec: Codec, blockSize: nat, payload: seq<Byte>, scales: seq<Scale>)
    | Raw(stored: seq<int>)

  datatype Page = Page(keys: Stream, values: Stream, count: nat)

  // ---- choosing a codec -----------------------------------------------------------------------------

  function Estimate(c: Codec, maximum: real): real {
    match c
    case Int2 => maximum / 3.0
    case Int4 => maximum / 15.0
    case Int8 => maximum / 255.0
    case Fp16 => 0.0
  }

  predicate Suits(config: Config, maximum: real, c: Codec) {
    config.minBits <= BitsFor(c) <= config.maxBits && Estimate(c, maximum) <= config.maxPageError
  }

  /** The narrowest codec that suits, or the raw one when none does. */
  ghost predicate Chosen(config: Config, maximum: real, c: Codec) {
    && (Suits(config, maximum, c) || c == Fp16)
    && forall d :: BitsFor(d) < BitsFor(c) ==> !Suits(config, maximum, d)
  }

  method Choose(config: Config, maximum: real) returns (c: Codec)
    ensures Chosen(config, maximum, c)
  {
    hide Suits;
    var candidates := [Int2, Int4, Int8, Fp16];
    assert candidates[0] == Int2 && candidates[1] == Int4 && candidates[2] == Int8 && candidates[3] == Fp16;
    for k := 0 to |candidates|
      invariant forall j :: 0 <= j < k ==> !Suits(config, maximum, candidates[j])
    {
      SuitsIs(config, maximum, candidates[k]);
      if config.minBits <= BitsFor(candidates[k]) <= config.maxBits
         && Estimate(candidates[k], maximum) <= config.maxPageError {
        return candidates[k];
      }
    }
    c := Fp16;
  }

  lemma SuitsIs(config: Config, maximum: real, c: Codec)
    ensures Suits(config, maximum, c)
       <==> config.minBits <= BitsFor(c) <= config.maxBits && Estimate(c, maximum) <= config.maxPageError
  {
  }

  /** A codec is refused for its error exactly from 2 qmax + 1 times the budget on. */
  lemma RefusedExactly(c: Codec, maximum: real, budget: real)
    requires c != Fp16
    ensures Estimate(c, maximum) > budget <==> maximum > (2 * Qmax(c) + 1) as real * budget
  {
  }

  /** Main result: with every width allowed, the codec is decided by how often the budget goes into the greatest
      magnitude. */
  lemma ChosenExactly(config: Config, maximum: real, c: Codec)
    requires Chosen(config, maximum, c) && config.minBits <= 2 && config.maxBits >= 16 && maximum >= 0.0
    ensures c == Int2 <==> maximum <= 3.0 * config.maxPageError
    ensures c == Int4 <==> 3.0 * config.maxPageError < maximum <= 15.0 * config.maxPageError
    ensures c == Int8 <==> 15.0 * config.maxPageError < maximum <= 255.0 * config.maxPageError
    ensures c == Fp16 <==> 255.0 * config.maxPageError < maximum
  {
    hide Estimate;
    RefusedExactly(Int2, maximum, config.maxPageError);
    RefusedExactly(Int4, maximum, config.maxPageError);
    RefusedExactly(Int8, maximum, config.maxPageError);
    assert Suits(config, maximum, Int2) <==> maximum <= 3.0 * config.maxPageError;
    assert Suits(config, maximum, Int4) <==> maximum <= 15.0 * config.maxPageError;
    assert Suits(config, maximum, Int8) <==> maximum <= 255.0 * config.maxPageError;
  }

  // ---- streams --------------------------------------------------------------------------------------

  /** The raw form keeps an integer of 16 bits per value. */
  function RawCode(x: real): (n: int)
    ensures -32768 <= n <= 32767
  {
    RoundEvenWithin(if x < -32768.0 then -32768.0 else if x > 32767.0 then 32767.0 else x, -32768, 32767);
    RoundEven(if x < -32768.0 then -32768.0 else if x > 32767.0 then 32767.0 else x)
  }

  /** A raw code is the nearest 16-bit integer. */
  lemma RawNearest(x: real, m: int)
    requires -32768 <= m <= 32767
    ensures Abs(RawCode(x) as real - x) <= Abs(m as real - x)
  {
    if x < -32768.0 {
      RoundEvenInteger(-32768);
    } else if x > 32767.0 {
      RoundEvenInteger(32767);
    } else {
      NearestWithin(x, RoundEven(x), -32768, 32767, m);
      RoundEvenWithin(x, -32768, 32767);
    }
  }

  function RawCodes(input: seq<real>): (r: seq<int>)
    ensures |r| == |input| && forall i :: 0 <= i < |input| ==> r[i] == RawCode(input[i])
  {
    seq(|input|, i requires 0 <= i < |input| => RawCode(input[i]))
  }

  function Floats(stored: seq<int>): (r: seq<real>)
    ensures |r| == |stored| && forall i :: 0 <= i < |stored| ==> r[i] == stored[i] as real
  {
    seq(|stored|, i requires 0 <= i < |stored| => stored[i] as real)
  }

  /** The stream holds this input under this codec. */
  ghost predicate Encodes(s: Stream, input: seq<real>, c: Codec, blockSize: nat)
    requires blockSize > 0
  {
    match s
    case Raw(stored) => c == Fp16 && stored == RawCodes(input)
    case Quantised(codec, size, payload, scales) =>
      c != Fp16 && codec == c && size == blockSize && Packed(input, c, blockSize, payload, scales)
  }

  /** The stream can be decoded into so many values. */
  predicate Decodable(s: Stream, count: nat) {
    match s
    case Raw(stored) => |stored| == count
    case Quantised(c, blockSize, payload, scales) =>
      c != Fp16 && blockSize > 0 && Readable(payload, scales, count, c, blockSize)
  }

  function Decoded(s: Stream, count: nat): (r: seq<real>)
    requires Decodable(s, count)
    ensures |r| == count
  {
    match s
    case Raw(stored) => Floats(stored)
    case Quantised(c, blockSize, payload, scales) => Restored(payload, scales, count, c, blockSize)
  }

  lemma EncodedDecodable(s: Stream, input: seq<real>, c: Codec, blockSize: nat)
    requires blockSize > 0 && Encodes(s, input, c, blockSize)
    ensures Decodable(s, |input|)
  {
    hide Packed, Readable;
    match s
    case Raw(_) =>
    case Quantised(_, _, payload, scales) => PackedReadable(input, c, blockSize, payload, scales);
  }

  /** The raw codes of the values the blocks reach; the others stay zero. */
  function RawUpTo(input: seq<real>, done: nat): (r: seq<int>)
    ensures |r| == |input| && forall i :: 0 <= i < |input| ==> r[i] == if i < done then RawCode(input[i]) else 0
  {
    seq(|input|, i requires 0 <= i < |input| => if i < done then RawCode(input[i]) else 0)
  }

  /** What encoding writes, whether or not the number of blocks wraps. */
  ghost predicate Writes(s: Stream, input: seq<real>, c: Codec, blockSize: nat)
    requires blockSize > 0
  {
    match s
    case Raw(stored) => c == Fp16 && stored == RawUpTo(input, Reached(|input|, blockSize))
    case Quantised(codec, size, payload, scales) =>
      && c != Fp16 && codec == c && size == blockSize
      && ScaledUpTo(input, c, blockSize, scales)
      && CodedUpTo(input, c, blockSize, payload, scales, Reached(|input|, blockSize))
  }

  /** Block by block, each value as a rounded integer. */
  method EncodeRaw(input: seq<real>, blockSize: nat) returns (stored: seq<int>)
    requires 0 < blockSize < UINT32 && 0 < |input| < UINT32
    ensures stored == RawUpTo(input, Reached(|input|, blockSize))
  {
    hide Start, Blocks, RawCode;
    var count, n := |input|, Blocks(|input|, blockSize);
    stored := seq(count, _ => 0);
    NothingReached(blockSize);
    assert stored == RawUpTo(input, 0);
    for b := 0 to n
      invariant stored == RawUpTo(input, Min(count, Start(b, blockSize)))
    {
      BlockBounds(count, blockSize, b);
      var start, end := b * blockSize, Min(count, (b * blockSize + blockSize) % UINT32);
      for i := start to end
        invariant stored == RawUpTo(input, i)
      {
        stored := stored[i := RawCode(input[i])];
      }
      NextStart(b, blockSize);
    }
  }

  lemma NothingReached(blockSize: nat)
    ensures Start(0, blockSize) == 0
  {
  }

  lemma NextStart(b: nat, blockSize: nat)
    ensures Start(b + 1, blockSize) == Start(b, blockSize) + blockSize
  {
  }

  /** The stream holds the input if, and for a quantised stream only if, the number of blocks does not wrap. */
  method EncodeStream(input: seq<real>, c: Codec, blockSize: nat) returns (s: Stream)
    requires 0 < blockSize < UINT32 && input != [] && PayloadFits(c, |input|)
    ensures Writes(s, input, c, blockSize)
    ensures Fits(|input|, blockSize) ==> Encodes(s, input, c, blockSize)
    ensures c != Fp16 && !Fits(|input|, blockSize) ==> !Encodes(s, input, c, blockSize)
  {
    hide Packed, Reached, ScaledUpTo, CodedUpTo;
    if c == Fp16 {
      var stored := EncodeRaw(input, blockSize);
      ReachedAll(|input|, blockSize);
      assert RawUpTo(input, |input|) == RawCodes(input);
      s := Raw(stored);
    } else {
      var payload, scales := Pack(input, c, blockSize);
      s := Quantised(c, blockSize, payload, scales);
    }
  }

  method DecodeStream(s: Stream, count: nat) returns (output: seq<real>)
    requires Decodable(s, count)
    ensures output == Decoded(s, count)
  {
    hide Readable;
    match s
    case Raw(stored) =>
      output := [];
      for i := 0 to count
        invariant output == Floats(stored)[..i]
      {
        output := output + [stored[i] as real];
      }
      assert Floats(stored)[..count] == Floats(stored);
    case Quantised(c, blockSize, payload, scales) =>
      output := Unpack(payload, scales, count, c, blockSize);
  }

  function Tally(c: Codec, d: Codec): nat {
    if c == d then 1 else 0
  }

  // ---- the runtime ----------------------------------------------------------------------------------

  class Runtime {
    var config: Config
    var int2Pages: nat
    var int4Pages: nat
    var int8Pages: nat
    var fp16Pages: nat
    var recompressionAttempts: nat
    var recompressionSuccesses: nat

    constructor (c: Config)
      requires c.blockSize > 0 && c.minBits <= c.maxBits
      ensures config == c && int2Pages == int4Pages == int8Pages == fp16Pages == 0
      ensures recompressionAttempts == 0 && recompressionSuccesses == 0
    {
      config := c;
      int2Pages, int4Pages, int8Pages, fp16Pages, recompressionAttempts, recompressionSuccesses := 0, 0, 0, 0, 0, 0;
    }

    /** The codec the policy asks for. */
    ghost predicate Picks(input: seq<real>, c: Codec)
      reads this`config
    {
      if config.policy == FixedInt4 then c == Int4 else Chosen(config, MaxAbs(input), c)
    }

    method Pick(input: seq<real>) returns (c: Codec)
      ensures Picks(input, c)
    {
      var maximum := BlockMaximum(input, 0, |input|);
      assert input[0..|input|] == input;
      c := Choose(config, maximum);
      if config.policy == FixedInt4 {
        c := Int4;
      }
    }

    method CountPage(c: Codec)
      modifies this`int2Pages, this`int4Pages, this`int8Pages, this`fp16Pages
      ensures int2Pages == old(int2Pages) + Tally(c, Int2) && int4Pages == old(int4Pages) + Tally(c, Int4)
      ensures int8Pages == old(int8Pages) + Tally(c, Int8) && fp16Pages == old(fp16Pages) + Tally(c, Fp16)
    {
      match c
      case Int2 => int2Pages := int2Pages + 1;
      case Int4 => int4Pages := int4Pages + 1;
      case Int8 => int8Pages := int8Pages + 1;
      case Fp16 => fp16Pages := fp16Pages + 1;
    }

    /** Encodes keys and values, each under the codec its own magnitudes call for. */
    method Encode(keys: seq<real>, values: seq<real>) returns (page: Option<Page>, keyCodec: Codec, valueCodec: Codec)
      requires |keys| == |values| && 0 < config.blockSize < UINT32 && |keys| + 4 <= UINT32
      modifies this`int2Pages, this`int4Pages, this`int8Pages, this`fp16Pages
      ensures page == None <==> keys == []
      ensures page.Some? ==>
        && Picks(keys, keyCodec) && Picks(values, valueCodec) && page.value.count == |keys|
        && Writes(page.value.keys, keys, keyCodec, config.blockSize)
        && Writes(page.value.values, values, valueCodec, config.blockSize)
      ensures page.Some? && Fits(|keys|, config.blockSize) ==>
        && Encodes(page.value.keys, keys, keyCodec, config.blockSize)
        && Encodes(page.value.values, values, valueCodec, config.blockSize)
      ensures page.Some? ==>
        && int2Pages == old(int2Pages) + Tally(keyCodec, Int2) + Tally(valueCodec, Int2)
        && int4Pages == old(int4Pages) + Tally(keyCodec, Int4) + Tally(valueCodec, Int4)
        && int8Pages == old(int8Pages) + Tally(keyCodec, Int8) + Tally(valueCodec, Int8)
        && fp16Pages == old(fp16Pages) + Tally(keyCodec, Fp16) + Tally(valueCodec, Fp16)
    {
      hide Encodes, Writes, Chosen;
      keyCodec, valueCodec := Fp16, Fp16;
      if |keys| == 0 {
        return None, keyCodec, valueCodec;
      }
      keyCodec := Pick(keys);
      valueCodec := Pick(values);
      var keyStream := EncodeStream(keys, keyCodec, config.blockSize);
      var valueStream := EncodeStream(values, valueCodec, config.blockSize);
      CountPage(keyCodec);
      CountPage(valueCodec);
      page := Some(Page(keyStream, valueStream, |keys|));
    }

    /** Decodes a page and encodes it again as near as possible to the given codec; the configuration is put back. */
    method Recompress(source: Page, codec: Codec) returns (page: Option<Page>, keyCodec: Codec, valueCodec: Codec)
      requires Decodable(source.keys, source.count) && Decodable(source.values, source.count)
      requires 0 < config.blockSize < UINT32 && source.count + 4 <= UINT32
      modifies this
      ensures config == old(config)
      ensures page == None <==> source.count == 0
      ensures recompressionAttempts == old(recompressionAttempts) + 1
      ensures recompressionSuccesses == old(recompressionSuccesses) + (if page.Some? then 1 else 0)
      ensures page.Some? ==>
        var keys, values := Decoded(source.keys, source.count), Decoded(source.values, source.count);
        && Chosen(Narrowed(config, codec), MaxAbs(keys), keyCodec)
        && Chosen(Narrowed(config, codec), MaxAbs(values), valueCodec)
        && Writes(page.value.keys, keys, keyCodec, config.blockSize)
        && Writes(page.value.values, values, valueCodec, config.blockSize) && page.value.count == source.count
        && (Fits(source.count, config.blockSize) ==>
              && Encodes(page.value.keys, keys, keyCodec, config.blockSize)
              && Encodes(page.value.values, values, valueCodec, config.blockSize))
    {
      hide Encodes, Writes, Chosen, Decodable;
      recompressionAttempts := recompressionAttempts + 1;
      var keys := DecodeStream(source.keys, source.count);
      var values := DecodeStream(source.values, source.count);
      var previous := config;
      config := config.(policy := QualityBudget, minBits := BitsFor(codec), maxBits := BitsFor(codec));
      page, keyCodec, valueCodec := Encode(keys, values);
      config := previous;
      if page.Some? {
        recompressionSuccesses := recompressionSuccesses + 1;
      }
    }
  }

  /** The configuration under which a page is encoded again. */
  function Narrowed(config: Config, codec: Codec): Config {
    config.(policy := QualityBudget, minBits := BitsFor(codec), maxBits := BitsFor(codec))
  }

  // ---- what the codec promises ----------------------------------------------------------------------

  /** The error is within 1 + 1/(2 qmax) times the budget, and so within one and a half times. */
  ghost predicate Tolerated(error: real, c: Codec, budget: real) {
    (2 * Qmax(c)) as real * error <= (2 * Qmax(c) + 1) as real * budget && error <= 1.5 * budget
  }

  lemma Budget(error: real, maximum: real, c: Codec, budget: real)
    requires c != Fp16 && error >= 0.0 && HalfStep(error, c, maximum) && Estimate(c, maximum) <= budget
    ensures Tolerated(error, c, budget)
  {
  }

  /** Main result: a value encoded under the error budget comes back to within a tolerance of that budget; a raw
      value within its range comes back to within a half. */
  lemma WithinBudget(s: Stream, input: seq<real>, c: Codec, config: Config, i: nat)
    requires config.blockSize > 0 && Encodes(s, input, c, config.blockSize)
    requires Chosen(config, MaxAbs(input), c) && i < |input|
    ensures Decodable(s, |input|)
    ensures c != Fp16 ==> Tolerated(Abs(Decoded(s, |input|)[i] - input[i]), c, config.maxPageError)
    ensures c == Fp16 && -32768.0 <= input[i] <= 32767.0 ==> Abs(Decoded(s, |input|)[i] - input[i]) <= 0.5
  {
    hide Packed, Readable, Restored, Abs, MaxAbs, RoundEven, Estimate, Chosen, Qmax, Tolerated, HalfStep;
    EncodedDecodable(s, input, c, config.blockSize);
    match s
    case Raw(_) =>
      RawNear(input[i]);
    case Quantised(_, _, payload, scales) =>
      PageError(input, c, config.blockSize, payload, scales, i);
      ChosenSuits(config, MaxAbs(input), c);
      Budget(Abs(Decoded(s, |input|)[i] - input[i]), MaxAbs(input), c, config.maxPageError);
  }

  lemma ChosenSuits(config: Config, maximum: real, c: Codec)
    requires Chosen(config, maximum, c) && c != Fp16
    ensures Estimate(c, maximum) <= config.maxPageError
  {
    hide Estimate;
  }

  lemma RawNear(x: real)
    ensures -32768.0 <= x <= 32767.0 ==> Abs(RawCode(x) as real - x) <= 0.5
  {
  }

  /** The factor is needed: the page [1, 1/2] under a budget of 1/3 is given two bits, and 1/2 comes back as 0. */
  lemma BudgetExceeded(s: Stream, c: Codec)
    requires Encodes(s, [1.0, 0.5], c, 2)
    requires Chosen(Config(QualityBudget, 2, 16, 2, 1.0 / 3.0), MaxAbs([1.0, 0.5]), c)
    ensures c == Int2 && Decodable(s, 2) && Abs(Decoded(s, 2)[1] - 0.5) == 0.5
  {
    hide Packed, Readable, Restored, MaxAbs, BlockOf, Start;
    MaxAbsIs([1.0, 0.5], 1.0) by { assert Abs([1.0, 0.5][0]) == 1.0; }
    SuitsIs(Config(QualityBudget, 2, 16, 2, 1.0 / 3.0), 1.0, Int2);
    assert c == Int2;
    EncodedDecodable(s, [1.0, 0.5], c, 2);
    OneBlock(s.payload, s.scales);
  }

  lemma OneBlock(payload: seq<Byte>, scales: seq<Scale>)
    requires Packed([1.0, 0.5], Int2, 2, payload, scales)
    ensures Readable(payload, scales, 2, Int2, 2) && Restored(payload, scales, 2, Int2, 2)[1] == 0.0
  {
    hide Coded, Quantized, Rounded, ReadCode, Restored, Readable, MaxAbs, ScaledUpTo, Covered;
    var input := [1.0, 0.5];
    RestoredAt(input, Int2, 2, payload, scales, 1);
    ScaledAt(input, Int2, 2, scales, 0);
    assert Block(input, 2, 0) == input;
    MaxAbsIs(input, 1.0) by { assert Abs(input[0]) == 1.0; }
    HalfIsZero();
  }

  lemma HalfIsZero()
    ensures Rounded(0.5, 1.0, Int2) == 0.0 && ScaleFor(1.0, Int2) == 1.0
  {
  }

  /** Recompression reaches the codec it is asked for exactly when the page fits the error budget under it. */
  lemma NarrowedChoice(config: Config, codec: Codec, maximum: real, c: Codec)
    requires Chosen(Narrowed(config, codec), maximum, c)
    ensures c == codec || c == Fp16
    ensures codec != Fp16 ==> (c == codec <==> Estimate(codec, maximum) <= config.maxPageError)
  {
    hide Estimate;
  }

  /** A page of one value 1 under a budget of 1/100, asked to be recompressed to four bits, is given the raw form. */
  lemma RecompressedRaw(c: Codec)
    requires Chosen(Narrowed(Config(FixedInt4, 2, 16, 1, 0.01), Int4), MaxAbs([1.0]), c)
    ensures c == Fp16
  {
    MaxAbsIs([1.0], 1.0) by { assert Abs([1.0][0]) == 1.0; }
    NarrowedChoice(Config(FixedInt4, 2, 16, 1, 0.01), Int4, 1.0, c);
  }

  /** Main result: recompressing a stream to its own codec gives the same stream, if and only if its magnitudes fit
      the error budget under that codec. */
  lemma RecompressSame(s: Stream, input: seq<real>, codec: Codec, config: Config, c: Codec, s': Stream)
    requires config.blockSize > 0 && input != [] && Encodes(s, input, codec, config.blockSize) && Decodable(s, |input|)
    requires Chosen(Narrowed(config, codec), MaxAbs(Decoded(s, |input|)), c)
    requires Encodes(s', Decoded(s, |input|), c, config.blockSize)
    ensures s' == s <==> codec == Fp16 || Estimate(codec, MaxAbs(input)) <= config.maxPageError
  {
    hide Packed, Readable, Restored, MaxAbs, Estimate, RawCode;
    NarrowedChoice(config, codec, MaxAbs(Decoded(s, |input|)), c);
    match s
    case Raw(stored) =>
      RawAgain(input);
    case Quantised(_, _, payload, scales) =>
      PageMagnitude(input, codec, config.blockSize, payload, scales);
      if c == codec {
        RepackSame(input, codec, config.blockSize, payload, scales, s'.payload, s'.scales);
      }
  }

  lemma RawAgain(input: seq<real>)
    ensures RawCodes(Floats(RawCodes(input))) == RawCodes(input)
  {
    forall i | 0 <= i < |input|
      ensures RawCodes(Floats(RawCodes(input)))[i] == RawCodes(input)[i]
    {
      RawCodeAgain(input[i]);
    }
  }

  lemma RawCodeAgain(x: real)
    ensures RawCode(RawCode(x) as real) == RawCode(x)
  {
    hide RoundEven;
    RoundEvenInteger(RawCode(x));
  }

  /** A stream encoded under the budget is always reproduced. */
  lemma ChosenIsFixed(s: Stream, input: seq<real>, codec: Codec, config: Config, c: Codec, s': Stream)
    requires config.blockSize > 0 && input != [] && Encodes(s, input, codec, config.blockSize) && Decodable(s, |input|)
    requires Chosen(config, MaxAbs(input), codec)
    requires Chosen(Narrowed(config, codec), MaxAbs(Decoded(s, |input|)), c)
    requires Encodes(s', Decoded(s, |input|), c, config.blockSize)
    ensures s' == s
  {
    hide Encodes, Decodable, Decoded, MaxAbs;
    RecompressSame(s, input, codec, config, c, s');
  }
}
