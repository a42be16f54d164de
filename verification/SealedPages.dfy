/** The signed int4 reference page: keys scaled per channel, values per token, two nibbles a byte. */
module SealedPages {
  import opened Common
  import opened Arithmetic

  // ---- nibbles ------------------------------------------------------------------------------

  type Byte = b: nat | b < 256

  /** The low four bits of a value in [-7, 7]; other values are refused. */
  function EncodeNibble(value: int): (n: nat)
    requires -7 <= value <= 7
    ensures n < 16
  {
    value % 16
  }

  function DecodeNibble(n: nat): int {
    if n % 16 >= 8 then n % 16 - 16 else n % 16
  }

  lemma NibbleUpdate(b: Byte, value: int)
    requires -7 <= value <= 7
    ensures var lo := b / 16 * 16 + EncodeNibble(value);
            lo < 256 && DecodeNibble(lo) == value && DecodeNibble(lo / 16) == DecodeNibble(b / 16)
    ensures var hi := b % 16 + EncodeNibble(value) * 16;
            hi < 256 && DecodeNibble(hi) == DecodeNibble(b) && DecodeNibble(hi / 16) == value
  {
  }

  /** Sets the low or the high nibble of byte index / 2 and leaves the other nibble as it is. */
  method PackValue(packed: array<Byte>, index: nat, value: int)
    requires index / 2 < packed.Length && -7 <= value <= 7
    modifies packed
    ensures UnpackValue(packed[..], index) == value
    ensures forall i :: 0 <= i < 2 * packed.Length && i != index ==>
                          UnpackValue(packed[..], i) == UnpackValue(old(packed[..]), i)
  {
    hide DecodeNibble, EncodeNibble;
    var byte := index / 2;
    var nibble := EncodeNibble(value);
    NibbleUpdate(packed[byte], value);
    if index % 2 == 0 {
      packed[byte] := packed[byte] / 16 * 16 + nibble;
    } else {
      packed[byte] := packed[byte] % 16 + nibble * 16;
    }
  }

  function UnpackValue(packed: seq<Byte>, index: nat): int
    requires index / 2 < |packed|
  {
    DecodeNibble(if index % 2 == 0 then packed[index / 2] else packed[index / 2] / 16)
  }

  /** A byte is two values, the earlier in the low four bits. */
  lemma ByteOfValues(packed: seq<Byte>, k: nat)
    requires k < |packed|
    ensures packed[k] == UnpackValue(packed, 2 * k) % 16 + 16 * (UnpackValue(packed, 2 * k + 1) % 16)
  {
    assert packed[k] == packed[k] % 16 + 16 * (packed[k] / 16);
  }

  // ---- pages --------------------------------------------------------------------------------

  datatype SealedKvPage = SealedKvPage(tokenBegin: nat, tokenCount: nat, layer: nat, kvHead: nat, headDim: nat,
                                       packedK: seq<Byte>, packedV: seq<Byte>, kScales: seq<real>, vScales: seq<real>)
  {
    function ValueCount(): nat { tokenCount * headDim }

    predicate Valid() {
      var packed := (ValueCount() + 1) / 2;
      && tokenCount != 0 && headDim != 0 && |packedK| == packed && |packedV| == packed
      && |kScales| == headDim && |vScales| == tokenCount
      && tokenBegin + tokenCount <= UINT32_MAX
    }

    function ResidentBytes(): nat {
      |packedK| + |packedV| + |kScales| * 4 + |vScales| * 4
    }
  }

  /** What a valid page takes: half a byte a value, rounded up, and four bytes a scale. */
  lemma ResidentExactly(page: SealedKvPage)
    requires page.Valid()
    ensures page.ResidentBytes()
         == 2 * ((page.tokenCount * page.headDim + 1) / 2) + 4 * (page.headDim + page.tokenCount)
  {
  }

  /** Key d of token t as it is read back. */
  function KeyAt(page: SealedKvPage, t: nat, d: nat): real
    requires page.Valid() && t < page.tokenCount && d < page.headDim
  {
    RowInside(t, page.tokenCount, page.headDim);
    UnpackValue(page.packedK, t * page.headDim + d) as real * page.kScales[d]
  }

  /** Value d of token t as it is read back. */
  function ValueAt(page: SealedKvPage, t: nat, d: nat): real
    requires page.Valid() && t < page.tokenCount && d < page.headDim
  {
    RowInside(t, page.tokenCount, page.headDim);
    UnpackValue(page.packedV, t * page.headDim + d) as real * page.vScales[t]
  }

  // ---- sealing ------------------------------------------------------------------------------

  function SafeScale(maximum: real): (scale: real)
    requires maximum >= 0.0
    ensures scale > 0.0 && maximum <= 7.0 * scale
    ensures maximum > 0.0 ==> maximum == 7.0 * scale
  {
    if maximum > 0.0 then maximum / 7.0 else 1.0
  }

  function Quantize(value: real, scale: real): (q: int)
    requires scale > 0.0
    ensures -7 <= q <= 7
  {
    Clamp(RoundAway(value / scale), -7, 7)
  }

  /** No clamping happens to a value its scale covers, so the error is half a step. */
  lemma QuantizeError(value: real, scale: real)
    requires scale > 0.0 && Abs(value) <= 7.0 * scale
    ensures Abs(Quantize(value, scale) as real * scale - value) <= scale / 2.0
  {
    DividesInto(value, scale, 7.0);
    RoundAwayWithin(value / scale, -7, 7);
    ScaledBack(value, scale, RoundAway(value / scale));
  }

  /** The code is the nearest of the fifteen. */
  lemma NearestNibble(value: real, scale: real, q: int)
    requires scale > 0.0 && -7 <= q <= 7
    ensures Miss(Quantize(value, scale) as real, scale, value) <= Miss(q as real, scale, value)
  {
    hide Miss, RoundAway, Clamp;
    NearestMultiple(value, scale, RoundAway(value / scale), -7, 7, q);
  }

  /** The values that start at `first`, `stride` apart. */
  function Strided(x: seq<real>, first: nat, stride: nat, count: nat): (r: seq<real>)
    requires forall i :: 0 <= i < count ==> first + i * stride < |x|
    ensures |r| == count && forall i :: 0 <= i < count ==> r[i] == x[first + i * stride]
  {
    seq(count, i requires 0 <= i < count => x[first + i * stride])
  }

  /** The scale covers all the values and is no larger than the greatest of them needs. */
  ghost predicate Covers(values: seq<real>, scale: real) {
    && scale > 0.0
    && (forall i :: 0 <= i < |values| ==> Abs(values[i]) <= 7.0 * scale)
    && (scale == 1.0 || exists i :: 0 <= i < |values| && Abs(values[i]) == 7.0 * scale)
  }

  method ScaleOf(x: seq<real>, first: nat, stride: nat, count: nat) returns (scale: real)
    requires forall i :: 0 <= i < count ==> first + i * stride < |x|
    ensures scale > 0.0 && Covers(Strided(x, first, stride, count), scale)
  {
    hide Abs;
    ghost var values := Strided(x, first, stride, count);
    var maximum := 0.0;
    for i := 0 to count
      invariant maximum >= 0.0
      invariant forall j :: 0 <= j < i ==> Abs(values[j]) <= maximum
      invariant maximum == 0.0 || exists j :: 0 <= j < i && Abs(values[j]) == maximum
    {
      var a := Abs(x[first + i * stride]);
      assert a == Abs(values[i]);
      if maximum < a {
        maximum := a;
      }
    }
    scale := SafeScale(maximum);
  }

  /** Channel d of all tokens. */
  function Channel(k: seq<real>, tokenCount: nat, headDim: nat, d: nat): (r: seq<real>)
    requires |k| == tokenCount * headDim && d < headDim
    ensures |r| == tokenCount
  {
    ChannelInside(k, tokenCount, headDim, d);
    Strided(k, d, headDim, tokenCount)
  }

  lemma ChannelInside(k: seq<real>, tokenCount: nat, headDim: nat, d: nat)
    requires |k| == tokenCount * headDim && d < headDim
    ensures forall t :: 0 <= t < tokenCount ==> d + t * headDim < |k|
  {
    forall t | 0 <= t < tokenCount
      ensures d + t * headDim < |k|
    {
      RowInside(t, tokenCount, headDim);
    }
  }

  /** All channels of token t. */
  function TokenRow(v: seq<real>, tokenCount: nat, headDim: nat, t: nat): (r: seq<real>)
    requires |v| == tokenCount * headDim && t < tokenCount
    ensures |r| == headDim
  {
    RowInside(t, tokenCount, headDim);
    v[t * headDim..t * headDim + headDim]
  }

  /** What sealing promises: a valid page whose every key and value is within half its scale of the
      original, each scale being the least that covers its channel or its token. */
  ghost predicate Seals(page: SealedKvPage, k: seq<real>, v: seq<real>, tokenBegin: nat, tokenCount: nat,
                        layer: nat, kvHead: nat, headDim: nat)
    requires |k| == |v| == tokenCount * headDim
  {
    && page.Valid()
    && page.tokenBegin == tokenBegin && page.tokenCount == tokenCount
    && page.layer == layer && page.kvHead == kvHead && page.headDim == headDim
    && (forall d :: 0 <= d < headDim ==> Covers(Channel(k, tokenCount, headDim, d), page.kScales[d]))
    && (forall t :: 0 <= t < tokenCount ==> Covers(TokenRow(v, tokenCount, headDim, t), page.vScales[t]))
    && (forall t, d :: 0 <= t < tokenCount && 0 <= d < headDim ==> CloseAt(page, k, v, t, d))
  }

  ghost predicate CloseAt(page: SealedKvPage, k: seq<real>, v: seq<real>, t: nat, d: nat)
    requires page.Valid() && t < page.tokenCount && d < page.headDim
    requires |k| == |v| == page.tokenCount * page.headDim
  {
    RowInside(t, page.tokenCount, page.headDim);
    && Abs(KeyAt(page, t, d) - k[t * page.headDim + d]) <= page.kScales[d] / 2.0
    && Abs(ValueAt(page, t, d) - v[t * page.headDim + d]) <= page.vScales[t] / 2.0
  }

  datatype SealResult = Sealed(page: SealedKvPage) | Refused

  /** Scales first, then every value quantised and packed. */
  method SealInt4Page(k: seq<real>, v: seq<real>, tokenBegin: nat, tokenCount: nat,
                      layer: nat, kvHead: nat, headDim: nat)
    returns (r: SealResult)
    requires |k| == |v| == tokenCount * headDim
    ensures r.Sealed? <==> tokenCount != 0 && headDim != 0 && tokenBegin + tokenCount <= UINT32_MAX
    ensures r.Sealed? ==> Seals(r.page, k, v, tokenBegin, tokenCount, layer, kvHead, headDim)
  {
    hide Covers, PackedTo, KeyAt, ValueAt, Abs;
    if tokenCount == 0 || headDim == 0 || tokenBegin + tokenCount > UINT32_MAX {
      return Refused;
    }
    var kScales := KeyScales(k, tokenCount, headDim);
    var vScales := ValueScales(v, tokenCount, headDim);
    var packedK, packedV := PackAll(k, v, kScales, vScales, tokenCount, headDim);
    var page := SealedKvPage(tokenBegin, tokenCount, layer, kvHead, headDim, packedK, packedV, kScales, vScales);
    forall t, d | 0 <= t < tokenCount && 0 <= d < headDim
      ensures CloseAt(page, k, v, t, d)
    {
      KeyClose(page, k, t, d);
      ValueClose(page, v, t, d);
    }
    r := Sealed(page);
  }

  method KeyScales(k: seq<real>, tokenCount: nat, headDim: nat) returns (scales: seq<real>)
    requires |k| == tokenCount * headDim
    ensures |scales| == headDim
    ensures forall d :: 0 <= d < headDim ==> scales[d] > 0.0 && Covers(Channel(k, tokenCount, headDim, d), scales[d])
  {
    hide Covers;
    scales := [];
    for d := 0 to headDim
      invariant |scales| == d
      invariant forall e :: 0 <= e < d ==> scales[e] > 0.0 && Covers(Channel(k, tokenCount, headDim, e), scales[e])
    {
      ChannelInside(k, tokenCount, headDim, d);
      var scale := ScaleOf(k, d, headDim, tokenCount);
      scales := scales + [scale];
    }
  }

  method ValueScales(v: seq<real>, tokenCount: nat, headDim: nat) returns (scales: seq<real>)
    requires |v| == tokenCount * headDim
    ensures |scales| == tokenCount
    ensures forall t :: 0 <= t < tokenCount ==>
      scales[t] > 0.0 && Covers(TokenRow(v, tokenCount, headDim, t), scales[t])
  {
    hide Covers;
    scales := [];
    for t := 0 to tokenCount
      invariant |scales| == t
      invariant forall u :: 0 <= u < t ==> scales[u] > 0.0 && Covers(TokenRow(v, tokenCount, headDim, u), scales[u])
    {
      RowInside(t, tokenCount, headDim);
      var scale := ScaleOf(v, t * headDim, 1, headDim);
      assert Strided(v, t * headDim, 1, headDim) == TokenRow(v, tokenCount, headDim, t);
      scales := scales + [scale];
    }
  }

  /** The first m values are packed. */
  ghost predicate PackedTo(packed: seq<Byte>, x: seq<real>, scales: seq<real>, headDim: nat, perToken: bool, m: nat)
    requires headDim > 0
  {
    && m <= |x| <= 2 * |packed|
    && forall i :: 0 <= i < m ==> PackedAt(packed, x, scales, headDim, perToken, i)
  }

  ghost predicate PackedAt(packed: seq<Byte>, x: seq<real>, scales: seq<real>, headDim: nat, perToken: bool, i: nat)
    requires headDim > 0 && i < |x| <= 2 * |packed|
  {
    var s := if perToken then i / headDim else i % headDim;
    && s < |scales| && scales[s] > 0.0
    && UnpackValue(packed, i) == Quantize(x[i], scales[s])
  }

  lemma PackedNext(before: seq<Byte>, after: seq<Byte>, x: seq<real>, scales: seq<real>, headDim: nat, perToken: bool,
                   m: nat)
    requires headDim > 0 && PackedTo(before, x, scales, headDim, perToken, m) && m < |x| && |after| == |before|
    requires forall i :: 0 <= i < 2 * |before| && i != m ==> UnpackValue(after, i) == UnpackValue(before, i)
    requires PackedAt(after, x, scales, headDim, perToken, m)
    ensures PackedTo(after, x, scales, headDim, perToken, m + 1)
  {
    hide UnpackValue, Quantize;
    forall i | 0 <= i < m + 1
      ensures PackedAt(after, x, scales, headDim, perToken, i)
    {
      if i < m {
        assert PackedAt(before, x, scales, headDim, perToken, i);
      }
    }
  }

  method PackAll(k: seq<real>, v: seq<real>, kScales: seq<real>, vScales: seq<real>, tokenCount: nat, headDim: nat)
    returns (packedK: seq<Byte>, packedV: seq<Byte>)
    requires |k| == |v| == tokenCount * headDim && headDim > 0
    requires |kScales| == headDim && |vScales| == tokenCount
    requires forall d :: 0 <= d < headDim ==> kScales[d] > 0.0
    requires forall t :: 0 <= t < tokenCount ==> vScales[t] > 0.0
    ensures |packedK| == |packedV| == (tokenCount * headDim + 1) / 2
    ensures PackedTo(packedK, k, kScales, headDim, false, |k|)
    ensures PackedTo(packedV, v, vScales, headDim, true, |v|)
  {
    hide PackedTo, UnpackValue, Quantize;
    var size := (tokenCount * headDim + 1) / 2;
    var wordsK := new Byte[size](i => 0);
    var wordsV := new Byte[size](i => 0);
    NothingPacked(wordsK[..], k, kScales, headDim, false);
    NothingPacked(wordsV[..], v, vScales, headDim, true);
    for t := 0 to tokenCount
      invariant PackedTo(wordsK[..], k, kScales, headDim, false, t * headDim)
      invariant PackedTo(wordsV[..], v, vScales, headDim, true, t * headDim)
    {
      RowInside(t, tokenCount, headDim);
      for d := 0 to headDim
        invariant PackedTo(wordsK[..], k, kScales, headDim, false, t * headDim + d)
        invariant PackedTo(wordsV[..], v, vScales, headDim, true, t * headDim + d)
      {
        var index := t * headDim + d;
        DivModUnique(index, headDim, t, d);
        ghost var beforeK, beforeV := wordsK[..], wordsV[..];
        PackValue(wordsK, index, Quantize(k[index], kScales[d]));
        PackValue(wordsV, index, Quantize(v[index], vScales[t]));
        PackedNext(beforeK, wordsK[..], k, kScales, headDim, false, index);
        PackedNext(beforeV, wordsV[..], v, vScales, headDim, true, index);
      }
      assert (t + 1) * headDim == t * headDim + headDim;
    }
    packedK, packedV := wordsK[..], wordsV[..];
  }

  lemma NothingPacked(packed: seq<Byte>, x: seq<real>, scales: seq<real>, headDim: nat, perToken: bool)
    requires headDim > 0 && |x| <= 2 * |packed|
    ensures PackedTo(packed, x, scales, headDim, perToken, 0)
  {
  }

  /** One packed value is read back to within half its scale. */
  lemma PackedClose(packed: seq<Byte>, x: seq<real>, scales: seq<real>, headDim: nat, perToken: bool, t: nat, d: nat,
                    scale: real)
    requires headDim > 0 && PackedTo(packed, x, scales, headDim, perToken, |x|)
    requires d < headDim && t * headDim + d < |x|
    requires if perToken then t < |scales| && scale == scales[t] else d < |scales| && scale == scales[d]
    requires scale > 0.0 && Abs(x[t * headDim + d]) <= 7.0 * scale
    ensures Abs(UnpackValue(packed, t * headDim + d) as real * scale - x[t * headDim + d]) <= scale / 2.0
  {
    hide UnpackValue, Quantize, Abs;
    DivModUnique(t * headDim + d, headDim, t, d);
    assert PackedAt(packed, x, scales, headDim, perToken, t * headDim + d);
    QuantizeError(x[t * headDim + d], scale);
  }

  lemma CoveredValue(values: seq<real>, scale: real, i: nat)
    requires Covers(values, scale) && i < |values|
    ensures scale > 0.0 && Abs(values[i]) <= 7.0 * scale
  {
  }

  lemma ChannelElement(k: seq<real>, tokenCount: nat, headDim: nat, t: nat, d: nat)
    requires |k| == tokenCount * headDim && t < tokenCount && d < headDim
    ensures t * headDim + d < |k|
    ensures Channel(k, tokenCount, headDim, d)[t] == k[t * headDim + d]
    ensures TokenRow(k, tokenCount, headDim, t)[d] == k[t * headDim + d]
  {
    RowInside(t, tokenCount, headDim);
  }

  lemma KeyClose(page: SealedKvPage, k: seq<real>, t: nat, d: nat)
    requires page.Valid() && t < page.tokenCount && d < page.headDim && |k| == page.tokenCount * page.headDim
    requires PackedTo(page.packedK, k, page.kScales, page.headDim, false, |k|)
    requires Covers(Channel(k, page.tokenCount, page.headDim, d), page.kScales[d])
    ensures t * page.headDim + d < |k|
    ensures Abs(KeyAt(page, t, d) - k[t * page.headDim + d]) <= page.kScales[d] / 2.0
  {
    hide UnpackValue, PackedTo, Covers, Abs, Quantize, Channel;
    ChannelElement(k, page.tokenCount, page.headDim, t, d);
    CoveredValue(Channel(k, page.tokenCount, page.headDim, d), page.kScales[d], t);
    PackedClose(page.packedK, k, page.kScales, page.headDim, false, t, d, page.kScales[d]);
  }

  lemma ValueClose(page: SealedKvPage, v: seq<real>, t: nat, d: nat)
    requires page.Valid() && t < page.tokenCount && d < page.headDim && |v| == page.tokenCount * page.headDim
    requires PackedTo(page.packedV, v, page.vScales, page.headDim, true, |v|)
    requires Covers(TokenRow(v, page.tokenCount, page.headDim, t), page.vScales[t])
    ensures t * page.headDim + d < |v|
    ensures Abs(ValueAt(page, t, d) - v[t * page.headDim + d]) <= page.vScales[t] / 2.0
  {
    hide UnpackValue, PackedTo, Covers, Abs, Quantize, TokenRow;
    ChannelElement(v, page.tokenCount, page.headDim, t, d);
    CoveredValue(TokenRow(v, page.tokenCount, page.headDim, t), page.vScales[t], d);
    PackedClose(page.packedV, v, page.vScales, page.headDim, true, t, d, page.vScales[t]);
  }

  // ---- reading back -------------------------------------------------------------------------

  /** Both tensors of a page, row by row. */
  method DequantizePage(page: SealedKvPage) returns (k: seq<real>, v: seq<real>)
    requires page.Valid()
    ensures |k| == |v| == page.tokenCount * page.headDim
    ensures forall t, d :: 0 <= t < page.tokenCount && 0 <= d < page.headDim ==> ReadBack(page, k, v, t, d)
  {
    hide KeyAt, ValueAt;
    k, v := [], [];
    for t := 0 to page.tokenCount
      invariant |k| == |v| == t * page.headDim
      invariant forall u, d :: 0 <= u < t && 0 <= d < page.headDim ==> ReadBack(page, k, v, u, d)
    {
      ghost var k0, v0 := k, v;
      for d := 0 to page.headDim
        invariant |k| == |v| == t * page.headDim + d
        invariant k0 <= k && v0 <= v
        invariant forall e :: 0 <= e < d ==> ReadBack(page, k, v, t, e)
      {
        ghost var k1, v1 := k, v;
        k := k + [KeyAt(page, t, d)];
        v := v + [ValueAt(page, t, d)];
        forall e | 0 <= e < d
          ensures ReadBack(page, k, v, t, e)
        {
          ReadBackKept(page, k1, v1, k, v, t, e);
        }
      }
      forall u, d | 0 <= u < t && 0 <= d < page.headDim
        ensures ReadBack(page, k, v, u, d)
      {
        ReadBackKept(page, k0, v0, k, v, u, d);
      }
      assert (t + 1) * page.headDim == t * page.headDim + page.headDim;
    }
  }

  /** Row t, column d of both tensors is what the page says. */
  ghost predicate ReadBack(page: SealedKvPage, k: seq<real>, v: seq<real>, t: nat, d: nat)
    requires page.Valid() && t < page.tokenCount && d < page.headDim
  {
    var index := t * page.headDim + d;
    index < |k| == |v| && k[index] == KeyAt(page, t, d) && v[index] == ValueAt(page, t, d)
  }

  lemma ReadBackKept(page: SealedKvPage, k0: seq<real>, v0: seq<real>, k: seq<real>, v: seq<real>, t: nat, d: nat)
    requires page.Valid() && t < page.tokenCount && d < page.headDim
    requires k0 <= k && v0 <= v && |k| == |v| && ReadBack(page, k0, v0, t, d)
    ensures ReadBack(page, k, v, t, d)
  {
    hide KeyAt, ValueAt;
  }
}
