/** Fixture pages: keys scaled per channel, values per token, both as symbol streams, with what they decode to. */
module FixturePages {
  import opened Common
  import opened Arithmetic
  import B = Blockwise
  import S = SealedPages
  import opened SymbolStreams

  datatype FixturePage = FixturePage(tokenBegin: nat, tokenCount: nat, headDim: nat, kvHead: nat, zeroPoint: nat,
                                     kScales: seq<B.Scale>, vScales: seq<B.Scale>,
                                     backK: seq<real>, backV: seq<real>, k: EncodedStream, v: EncodedStream)

  /** The widths are those of the blockwise codecs. */
  function CodecOf(bits: nat): B.Codec
    requires IsWidth(bits)
  {
    if bits == 4 then B.Int4 else B.Int8
  }

  function ZeroPoint(bits: nat): nat
    requires IsWidth(bits)
  {
    if bits == 4 then 8 else 128
  }

  function SymbolFor(x: real, scale: B.Scale, bits: nat): (symbol: nat)
    requires IsWidth(bits)
    ensures symbol < Levels(bits)
  {
    B.Quantized(x, scale, CodecOf(bits)) + ZeroPoint(bits)
  }

  /** What a symbol stands for. */
  function Meaning(symbol: nat, scale: B.Scale, bits: nat): real
    requires IsWidth(bits)
  {
    (symbol - ZeroPoint(bits)) as real * scale
  }

  // ---- scales ---------------------------------------------------------------------------------------

  method MaximumOf(x: seq<real>, first: nat, stride: nat, count: nat) returns (maximum: real)
    requires forall i :: 0 <= i < count ==> first + i * stride < |x|
    ensures maximum == B.MaxAbs(S.Strided(x, first, stride, count))
  {
    hide B.MaxAbs, Abs;
    ghost var values := S.Strided(x, first, stride, count);
    maximum := 0.0;
    B.MaxAbsNone();
    for i := 0 to count
      invariant maximum == B.MaxAbs(values[..i])
    {
      B.MaxAbsNext(values[..i], values[i]);
      assert values[..i + 1] == values[..i] + [values[i]];
      var a := Abs(x[first + i * stride]);
      if a > maximum {
        maximum := a;
      }
    }
    assert values[..count] == values;
  }

  /** Each channel has the scale its greatest magnitude needs. */
  method ChannelScales(keys: seq<real>, tokenCount: nat, headDim: nat, c: B.Codec) returns (scales: seq<B.Scale>)
    requires |keys| == tokenCount * headDim
    ensures |scales| == headDim
    ensures forall d :: 0 <= d < headDim ==>
      scales[d] == B.ScaleFor(B.MaxAbs(S.Channel(keys, tokenCount, headDim, d)), c)
  {
    hide B.MaxAbs, B.ScaleFor;
    scales := [];
    for d := 0 to headDim
      invariant |scales| == d
      invariant forall e :: 0 <= e < d ==> scales[e] == B.ScaleFor(B.MaxAbs(S.Channel(keys, tokenCount, headDim, e)), c)
    {
      S.ChannelInside(keys, tokenCount, headDim, d);
      var maximum := MaximumOf(keys, d, headDim, tokenCount);
      scales := scales + [B.ScaleFor(maximum, c)];
    }
  }

  method TokenScales(values: seq<real>, tokenCount: nat, headDim: nat, c: B.Codec) returns (scales: seq<B.Scale>)
    requires |values| == tokenCount * headDim
    ensures |scales| == tokenCount
    ensures forall t :: 0 <= t < tokenCount ==>
      scales[t] == B.ScaleFor(B.MaxAbs(S.TokenRow(values, tokenCount, headDim, t)), c)
  {
    hide B.MaxAbs, B.ScaleFor;
    scales := [];
    for t := 0 to tokenCount
      invariant |scales| == t
      invariant forall u :: 0 <= u < t ==>
        scales[u] == B.ScaleFor(B.MaxAbs(S.TokenRow(values, tokenCount, headDim, u)), c)
    {
      RowInside(t, tokenCount, headDim);
      var maximum := MaximumOf(values, t * headDim, 1, headDim);
      assert S.Strided(values, t * headDim, 1, headDim) == S.TokenRow(values, tokenCount, headDim, t);
      scales := scales + [B.ScaleFor(maximum, c)];
    }
  }

  // ---- symbols --------------------------------------------------------------------------------------

  /** The first values as symbols, and what the symbols stand for. */
  ghost predicate QuantisedTo(x: seq<real>, symbols: seq<nat>, back: seq<real>, scales: seq<B.Scale>, headDim: nat,
                              perToken: bool, bits: nat)
    requires headDim > 0 && IsWidth(bits)
  {
    && |symbols| == |back| <= |x|
    && forall i :: 0 <= i < |symbols| ==> QuantisedAt(x, symbols, back, scales, headDim, perToken, bits, i)
  }

  ghost predicate QuantisedAt(x: seq<real>, symbols: seq<nat>, back: seq<real>, scales: seq<B.Scale>, headDim: nat,
                              perToken: bool, bits: nat, i: nat)
    requires headDim > 0 && IsWidth(bits) && i < |symbols| == |back| <= |x|
  {
    var s := if perToken then i / headDim else i % headDim;
    && s < |scales| && symbols[i] == SymbolFor(x[i], scales[s], bits)
    && back[i] == Meaning(symbols[i], scales[s], bits)
  }

  lemma QuantisedNext(x: seq<real>, symbols: seq<nat>, back: seq<real>, scales: seq<B.Scale>, headDim: nat,
                      perToken: bool, bits: nat, s: nat)
    requires headDim > 0 && IsWidth(bits)
    requires QuantisedTo(x, symbols, back, scales, headDim, perToken, bits) && |symbols| < |x|
    requires s == (if perToken then |symbols| / headDim else |symbols| % headDim) && s < |scales|
    ensures var symbol := SymbolFor(x[|symbols|], scales[s], bits);
            QuantisedTo(x, symbols + [symbol], back + [Meaning(symbol, scales[s], bits)], scales, headDim, perToken,
                        bits)
  {
    hide SymbolFor, Meaning;
    var symbol := SymbolFor(x[|symbols|], scales[s], bits);
    var symbols', back' := symbols + [symbol], back + [Meaning(symbol, scales[s], bits)];
    forall i | 0 <= i < |symbols'|
      ensures QuantisedAt(x, symbols', back', scales, headDim, perToken, bits, i)
    {
      if i < |symbols| {
        assert QuantisedAt(x, symbols, back, scales, headDim, perToken, bits, i);
        assert symbols'[i] == symbols[i] && back'[i] == back[i];
      }
    }
  }

  method QuantizeAll(keys: seq<real>, values: seq<real>, kScales: seq<B.Scale>, vScales: seq<B.Scale>, tokenCount: nat,
                     headDim: nat, bits: nat)
    returns (kSymbols: seq<nat>, vSymbols: seq<nat>, backK: seq<real>, backV: seq<real>)
    requires headDim > 0 && IsWidth(bits) && |keys| == |values| == tokenCount * headDim
    requires |kScales| == headDim && |vScales| == tokenCount
    ensures |kSymbols| == |vSymbols| == |backK| == |backV| == tokenCount * headDim
    ensures QuantisedTo(keys, kSymbols, backK, kScales, headDim, false, bits)
    ensures QuantisedTo(values, vSymbols, backV, vScales, headDim, true, bits)
  {
    hide QuantisedTo, SymbolFor, Meaning;
    kSymbols, vSymbols, backK, backV := [], [], [], [];
    NothingQuantised(keys, kScales, headDim, false, bits);
    NothingQuantised(values, vScales, headDim, true, bits);
    for t := 0 to tokenCount
      invariant |kSymbols| == |vSymbols| == |backK| == |backV| == t * headDim
      invariant QuantisedTo(keys, kSymbols, backK, kScales, headDim, false, bits)
      invariant QuantisedTo(values, vSymbols, backV, vScales, headDim, true, bits)
    {
      RowInside(t, tokenCount, headDim);
      for d := 0 to headDim
        invariant |kSymbols| == |vSymbols| == |backK| == |backV| == t * headDim + d
        invariant QuantisedTo(keys, kSymbols, backK, kScales, headDim, false, bits)
        invariant QuantisedTo(values, vSymbols, backV, vScales, headDim, true, bits)
      {
        var index := t * headDim + d;
        DivModUnique(index, headDim, t, d);
        QuantisedNext(keys, kSymbols, backK, kScales, headDim, false, bits, d);
        QuantisedNext(values, vSymbols, backV, vScales, headDim, true, bits, t);
        var kSymbol, vSymbol := SymbolFor(keys[index], kScales[d], bits), SymbolFor(values[index], vScales[t], bits);
        kSymbols, vSymbols := kSymbols + [kSymbol], vSymbols + [vSymbol];
        backK := backK + [Meaning(kSymbol, kScales[d], bits)];
        backV := backV + [Meaning(vSymbol, vScales[t], bits)];
      }
      assert (t + 1) * headDim == t * headDim + headDim;
    }
  }

  lemma NothingQuantised(x: seq<real>, scales: seq<B.Scale>, headDim: nat, perToken: bool, bits: nat)
    requires headDim > 0 && IsWidth(bits)
    ensures QuantisedTo(x, [], [], scales, headDim, perToken, bits)
  {
  }

  // ---- pages ----------------------------------------------------------------------------------------

  /** Entry (t, d) of a tensor: its symbol decodes to what the page says it does, within half its scale of the
      original. */
  ghost predicate FaithfulAt(x: seq<real>, back: seq<real>, stream: EncodedStream, scale: B.Scale, bits: nat,
                             index: nat)
    requires IsWidth(bits)
  {
    && index < |x| && index < |back| && index < Capacity(|stream.words|, bits)
    && back[index] == Meaning(ReadSymbol(stream.words, index, bits), scale, bits)
    && Abs(back[index] - x[index]) <= scale / 2.0
  }

  /** The stream is that of as many symbols as there are values. */
  ghost predicate Carries(stream: EncodedStream, count: nat, blockSize: nat, bits: nat)
    requires IsWidth(bits) && blockSize > 0
  {
    exists symbols: seq<nat> :: |symbols| == count && Streamed(symbols, blockSize, bits, stream)
  }

  ghost predicate Faithful(page: FixturePage, keys: seq<real>, values: seq<real>, bits: nat, t: nat, d: nat)
    requires IsWidth(bits)
  {
    && t < |page.vScales| && d < |page.kScales|
    && FaithfulAt(keys, page.backK, page.k, page.kScales[d], bits, t * page.headDim + d)
    && FaithfulAt(values, page.backV, page.v, page.vScales[t], bits, t * page.headDim + d)
  }

  /** One entry, from its symbol, its stream and its scale. */
  lemma EntryFaithful(x: seq<real>, symbols: seq<nat>, back: seq<real>, scales: seq<B.Scale>, stream: EncodedStream,
                      headDim: nat, perToken: bool, blockSize: nat, bits: nat, i: nat, scale: B.Scale)
    requires headDim > 0 && IsWidth(bits) && blockSize > 0 && i < |symbols| == |x|
    requires QuantisedTo(x, symbols, back, scales, headDim, perToken, bits)
    requires Streamed(symbols, blockSize, bits, stream)
    requires var s := if perToken then i / headDim else i % headDim; s < |scales| && scale == scales[s]
    requires Abs(x[i]) <= B.Qmax(CodecOf(bits)) as real * scale
    ensures FaithfulAt(x, back, stream, scale, bits, i)
  {
    hide Streamed, ReadSymbol, Abs, B.Quantized, Capacity;
    assert QuantisedAt(x, symbols, back, scales, headDim, perToken, bits, i);
    RoundTrip(symbols, blockSize, bits, stream, i);
    B.QuantizedNear(x[i], scale, CodecOf(bits));
  }

  method EncodePage(keys: seq<real>, values: seq<real>, tokenBegin: nat, tokenCount: nat, headDim: nat, kvHead: nat,
                    blockSize: nat, bits: nat) returns (r: Option<FixturePage>)
    ensures r.Some? <==> (
      && tokenCount != 0 && headDim != 0 && |keys| == |values| == tokenCount * headDim
      && blockSize != 0 && IsWidth(bits))
    ensures r.Some? ==>
      && r.value.tokenBegin == tokenBegin && r.value.tokenCount == tokenCount && r.value.headDim == headDim
      && r.value.kvHead == kvHead && r.value.zeroPoint == Levels(bits) / 2
      && |r.value.kScales| == headDim && |r.value.vScales| == tokenCount
      && |r.value.backK| == |r.value.backV| == tokenCount * headDim
    ensures r.Some? ==>
      Carries(r.value.k, |keys|, blockSize, bits) && Carries(r.value.v, |values|, blockSize, bits)
    ensures r.Some? ==> forall d :: 0 <= d < headDim ==>
      r.value.kScales[d] == B.ScaleFor(B.MaxAbs(S.Channel(keys, tokenCount, headDim, d)), CodecOf(bits))
    ensures r.Some? ==> forall t :: 0 <= t < tokenCount ==>
      r.value.vScales[t] == B.ScaleFor(B.MaxAbs(S.TokenRow(values, tokenCount, headDim, t)), CodecOf(bits))
    ensures r.Some? ==> forall t, d :: 0 <= t < tokenCount && 0 <= d < headDim ==>
      Faithful(r.value, keys, values, bits, t, d)
  {
    hide QuantisedTo, Streamed, FaithfulAt, B.MaxAbs, B.ScaleFor, S.Channel, S.TokenRow;
    if tokenCount == 0 || headDim == 0 || |keys| != tokenCount * headDim || |values| != tokenCount * headDim
       || blockSize == 0 || (bits != 4 && bits != 8) {
      return None;
    }
    var kScales := ChannelScales(keys, tokenCount, headDim, CodecOf(bits));
    var vScales := TokenScales(values, tokenCount, headDim, CodecOf(bits));
    var kSymbols, vSymbols, backK, backV := QuantizeAll(keys, values, kScales, vScales, tokenCount, headDim, bits);
    RowInside(0, tokenCount, headDim);
    var k := EncodeSymbols(kSymbols, blockSize, bits);
    var v := EncodeSymbols(vSymbols, blockSize, bits);
    var page := FixturePage(tokenBegin, tokenCount, headDim, kvHead, ZeroPoint(bits), kScales, vScales, backK, backV,
                            k.value, v.value);
    forall t, d | 0 <= t < tokenCount && 0 <= d < headDim
      ensures Faithful(page, keys, values, bits, t, d)
    {
      KeyFaithful(keys, kSymbols, backK, kScales, k.value, tokenCount, headDim, blockSize, bits, t, d);
      ValueFaithful(values, vSymbols, backV, vScales, v.value, tokenCount, headDim, blockSize, bits, t, d);
    }
    r := Some(page);
  }

  lemma KeyFaithful(keys: seq<real>, symbols: seq<nat>, back: seq<real>, scales: seq<B.Scale>, stream: EncodedStream,
                    tokenCount: nat, headDim: nat, blockSize: nat, bits: nat, t: nat, d: nat)
    requires IsWidth(bits) && blockSize > 0 && |symbols| == |keys| == tokenCount * headDim
    requires t < tokenCount && d < headDim
    requires QuantisedTo(keys, symbols, back, scales, headDim, false, bits)
    requires Streamed(symbols, blockSize, bits, stream)
    requires |scales| == headDim
    requires scales[d] == B.ScaleFor(B.MaxAbs(S.Channel(keys, tokenCount, headDim, d)), CodecOf(bits))
    ensures FaithfulAt(keys, back, stream, scales[d], bits, t * headDim + d)
  {
    hide QuantisedTo, Streamed, FaithfulAt, B.MaxAbs, B.ScaleFor, S.Channel, S.TokenRow, Abs;
    S.ChannelElement(keys, tokenCount, headDim, t, d);
    DivModUnique(t * headDim + d, headDim, t, d);
    B.WithinBlock(S.Channel(keys, tokenCount, headDim, d), t, CodecOf(bits));
    EntryFaithful(keys, symbols, back, scales, stream, headDim, false, blockSize, bits, t * headDim + d, scales[d]);
  }

  lemma ValueFaithful(values: seq<real>, symbols: seq<nat>, back: seq<real>, scales: seq<B.Scale>,
                      stream: EncodedStream, tokenCount: nat, headDim: nat, blockSize: nat, bits: nat, t: nat, d: nat)
    requires IsWidth(bits) && blockSize > 0 && |symbols| == |values| == tokenCount * headDim
    requires t < tokenCount && d < headDim
    requires QuantisedTo(values, symbols, back, scales, headDim, true, bits)
    requires Streamed(symbols, blockSize, bits, stream)
    requires |scales| == tokenCount
    requires scales[t] == B.ScaleFor(B.MaxAbs(S.TokenRow(values, tokenCount, headDim, t)), CodecOf(bits))
    ensures FaithfulAt(values, back, stream, scales[t], bits, t * headDim + d)
  {
    hide QuantisedTo, Streamed, FaithfulAt, B.MaxAbs, B.ScaleFor, S.Channel, S.TokenRow, Abs;
    S.ChannelElement(values, tokenCount, headDim, t, d);
    DivModUnique(t * headDim + d, headDim, t, d);
    B.WithinBlock(S.TokenRow(values, tokenCount, headDim, t), d, CodecOf(bits));
    EntryFaithful(values, symbols, back, scales, stream, headDim, true, blockSize, bits, t * headDim + d, scales[t]);
  }
}
