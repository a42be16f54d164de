/** The fixture's symbol streams: 4- or 8-bit symbols packed into 32-bit words from the high end. */
module SymbolStreams {
  import opened Common
  import opened Arithmetic
  import opened Bits
  import opened Slots

  datatype EncodedStream = EncodedStream(words: seq<Word>, blockOffsets: seq<int>, blockSize: nat, maxCodeLength: nat,
                                         lutSize: nat)

  predicate IsWidth(bits: nat) {
    bits == 4 || bits == 8
  }

  function Levels(bits: nat): nat
    requires IsWidth(bits)
  {
    if bits == 4 then 16 else 256
  }

  /** Where symbol i starts in the stream, in bits. */
  function BitOf(i: nat, bits: nat): nat
    requires IsWidth(bits)
  {
    if bits == 4 then i * 4 else i * 8
  }

  function WordOf(i: nat, bits: nat): nat
    requires IsWidth(bits)
  {
    BitOf(i, bits) / 32
  }

  /** How far symbol i is shifted up in its word. */
  function ShiftOf(i: nat, bits: nat): (s: nat)
    requires IsWidth(bits)
    ensures s + bits <= 32
  {
    (32 - bits) - BitOf(i, bits) % 32
  }

  function Capacity(words: nat, bits: nat): nat
    requires IsWidth(bits)
  {
    if bits == 4 then words * 8 else words * 4
  }

  lemma WordInside(i: nat, words: nat, bits: nat)
    requires IsWidth(bits)
    ensures WordOf(i, bits) < words <==> i < Capacity(words, bits)
  {
  }

  /** Symbol i of the stream, as bits. */
  function SymbolBits(words: seq<Word>, i: nat, bits: nat): (bs: seq<bool>)
    requires IsWidth(bits) && i < Capacity(|words|, bits)
    ensures |bs| == bits
  {
    WordInside(i, |words|, bits);
    words[WordOf(i, bits)][ShiftOf(i, bits)..ShiftOf(i, bits) + bits]
  }

  /** Different symbols of one word do not overlap. */
  lemma SymbolsApart(i: nat, j: nat, bits: nat)
    requires IsWidth(bits) && i != j && WordOf(i, bits) == WordOf(j, bits)
    ensures ShiftOf(i, bits) + bits <= ShiftOf(j, bits) || ShiftOf(j, bits) + bits <= ShiftOf(i, bits)
  {
  }

  lemma ReplaceSymbol(before: seq<Word>, i: nat, bits: nat, word: Word, j: nat)
    requires IsWidth(bits) && i < Capacity(|before|, bits) && j < Capacity(|before|, bits) && WordOf(i, bits) < |before|
    requires Outside(before[WordOf(i, bits)], word, ShiftOf(i, bits), bits)
    ensures SymbolBits(before[WordOf(i, bits) := word], j, bits)
         == if i == j then word[ShiftOf(i, bits)..ShiftOf(i, bits) + bits] else SymbolBits(before, j, bits)
  {
    hide ShiftOf, WordOf, Capacity;
    WordInside(j, |before|, bits);
    if i != j {
      if WordOf(i, bits) == WordOf(j, bits) {
        SymbolsApart(i, j, bits);
      }
      SlotKept(before, WordOf(i, bits), word, ShiftOf(i, bits), WordOf(j, bits), ShiftOf(j, bits), bits);
    }
  }

  /** Ors symbol i into the words. */
  method PutSymbol(words: array<Word>, i: nat, symbol: nat, bits: nat)
    requires IsWidth(bits) && i < Capacity(words.Length, bits)
    requires SymbolBits(words[..], i, bits) == Zeros(bits)
    modifies words
    ensures forall j :: 0 <= j < Capacity(words.Length, bits) ==>
      SymbolBits(words[..], j, bits) == if j == i then FromNat(symbol, bits) else old(SymbolBits(words[..], j, bits))
  {
    hide ShiftOf, WordOf, Capacity, FromNat, OrSlot;
    ghost var before := words[..];
    WordInside(i, words.Length, bits);
    var w := WordOf(i, bits);
    OrSlotBits(words[w], symbol, ShiftOf(i, bits), bits);
    words[w] := OrSlot(words[w], symbol, ShiftOf(i, bits), bits);
    assert words[..] == before[w := words[w]];
    forall j | 0 <= j < Capacity(words.Length, bits)
      ensures SymbolBits(words[..], j, bits) == (if j == i then FromNat(symbol, bits) else SymbolBits(before, j, bits))
    {
      ReplaceSymbol(before, i, bits, words[w], j);
    }
  }

  /** What encoding makes of the symbols: the low bits of each, in order, nothing behind them, and the bit
      offset of every block (truncated to 32 bits). */
  ghost predicate Streamed(symbols: seq<nat>, blockSize: nat, bits: nat, s: EncodedStream)
    requires IsWidth(bits) && blockSize > 0
  {
    && s.blockSize == blockSize && s.maxCodeLength == bits && s.lutSize == Levels(bits)
    && |s.words| == (BitOf(|symbols|, bits) + 31) / 32
    && StreamedTo(symbols, bits, s.words, |symbols|)
    && OffsetsTo(s.blockOffsets, blockSize, bits, |symbols|)
  }

  ghost predicate StreamedTo(symbols: seq<nat>, bits: nat, words: seq<Word>, done: nat)
    requires IsWidth(bits)
  {
    && done <= |symbols| <= Capacity(|words|, bits)
    && (forall i :: 0 <= i < done ==> SymbolBits(words, i, bits) == FromNat(symbols[i], bits))
    && (forall i :: done <= i < Capacity(|words|, bits) ==> SymbolBits(words, i, bits) == Zeros(bits))
  }

  /** The offsets of the blocks that start before symbol `done`. */
  ghost predicate OffsetsTo(offsets: seq<int>, blockSize: nat, bits: nat, done: nat)
    requires IsWidth(bits) && blockSize > 0
  {
    && (forall b :: 0 <= b < |offsets| ==> offsets[b] == Int32(BitOf(b * blockSize, bits)))
    && done <= |offsets| * blockSize < done + blockSize
  }

  lemma OffsetsNext(offsets: seq<int>, blockSize: nat, bits: nat, i: nat)
    requires IsWidth(bits) && blockSize > 0 && OffsetsTo(offsets, blockSize, bits, i)
    ensures i % blockSize == 0 ==> OffsetsTo(offsets + [Int32(BitOf(i, bits))], blockSize, bits, i + 1)
    ensures i % blockSize != 0 ==> OffsetsTo(offsets, blockSize, bits, i + 1)
  {
    hide BitOf, Int32;
    var n := |offsets|;
    if n * blockSize == i {
      DivModUnique(i, blockSize, n, 0);
      assert (n + 1) * blockSize == i + blockSize;
    } else {
      assert n > 0 by { assert n == 0 ==> n * blockSize == 0; }
      assert n * blockSize == (n - 1) * blockSize + blockSize;
      DivModUnique(i, blockSize, n - 1, i - (n - 1) * blockSize);
    }
  }

  lemma NothingStreamed(symbols: seq<nat>, bits: nat, words: seq<Word>)
    requires IsWidth(bits) && |words| == (BitOf(|symbols|, bits) + 31) / 32
    requires forall k :: 0 <= k < |words| ==> words[k] == Zeros(32)
    ensures StreamedTo(symbols, bits, words, 0)
  {
    forall i | 0 <= i < Capacity(|words|, bits)
      ensures SymbolBits(words, i, bits) == Zeros(bits)
    {
      WordInside(i, |words|, bits);
    }
  }

  lemma StreamedNext(symbols: seq<nat>, bits: nat, before: seq<Word>, after: seq<Word>, i: nat)
    requires IsWidth(bits) && i < |symbols| && StreamedTo(symbols, bits, before, i) && |after| == |before|
    requires forall j :: 0 <= j < Capacity(|before|, bits) ==>
      SymbolBits(after, j, bits) == if j == i then FromNat(symbols[i], bits) else SymbolBits(before, j, bits)
    ensures StreamedTo(symbols, bits, after, i + 1)
  {
    hide SymbolBits, Capacity, FromNat;
  }

  method EncodeSymbols(symbols: seq<nat>, blockSize: nat, bits: nat) returns (r: Option<EncodedStream>)
    ensures r == None <==> symbols == [] || blockSize == 0 || !IsWidth(bits)
    ensures r.Some? ==> Streamed(symbols, blockSize, bits, r.value)
  {
    hide StreamedTo, OffsetsTo, SymbolBits, FromNat, Int32;
    if |symbols| == 0 || blockSize == 0 || (bits != 4 && bits != 8) {
      return None;
    }
    var size := (BitOf(|symbols|, bits) + 31) / 32;
    var words := new Word[size](_ => Zeros(32));
    var offsets: seq<int> := [];
    NothingStreamed(symbols, bits, words[..]);
    assert OffsetsTo(offsets, blockSize, bits, 0) by { NoOffsets(blockSize, bits); }
    for i := 0 to |symbols|
      invariant StreamedTo(symbols, bits, words[..], i)
      invariant OffsetsTo(offsets, blockSize, bits, i)
    {
      OffsetsNext(offsets, blockSize, bits, i);
      if i % blockSize == 0 {
        offsets := offsets + [Int32(BitOf(i, bits))];
      }
      ghost var before := words[..];
      NextIsClear(symbols, bits, before, i);
      PutSymbol(words, i, symbols[i], bits);
      StreamedNext(symbols, bits, before, words[..], i);
    }
    r := Some(EncodedStream(words[..], offsets, blockSize, bits, Levels(bits)));
  }

  lemma NoOffsets(blockSize: nat, bits: nat)
    requires IsWidth(bits) && blockSize > 0
    ensures OffsetsTo([], blockSize, bits, 0)
  {
  }

  lemma NextIsClear(symbols: seq<nat>, bits: nat, words: seq<Word>, i: nat)
    requires IsWidth(bits) && StreamedTo(symbols, bits, words, i) && i < |symbols|
    ensures i < Capacity(|words|, bits) && SymbolBits(words, i, bits) == Zeros(bits)
  {
    hide SymbolBits;
  }

  // ---- reading --------------------------------------------------------------------------------------

  /** The shifted and masked word. */
  function ReadSymbol(words: seq<Word>, i: nat, bits: nat): nat
    requires IsWidth(bits) && i < Capacity(|words|, bits)
  {
    WordInside(i, |words|, bits);
    ReadSlot(words[WordOf(i, bits)], ShiftOf(i, bits), bits)
  }

  lemma ReadSymbolIs(words: seq<Word>, i: nat, bits: nat)
    requires IsWidth(bits) && i < Capacity(|words|, bits)
    ensures ReadSymbol(words, i, bits) == ToNat(SymbolBits(words, i, bits))
  {
    hide ShiftOf, WordOf, Capacity, ReadSlot, ToNat;
    WordInside(i, |words|, bits);
    ReadSlotIs(words[WordOf(i, bits)], ShiftOf(i, bits), bits);
  }

  /** Decodes so many symbols; refused on a bad codebook or a stream that is too short. */
  method DecodeSymbols(s: EncodedStream, count: nat) returns (r: Option<seq<nat>>)
    ensures r.Some? <==> (
      && IsWidth(s.maxCodeLength) && s.lutSize == Levels(s.maxCodeLength)
      && count <= Capacity(|s.words|, s.maxCodeLength))
    ensures r.Some? ==> |r.value| == count
    ensures r.Some? ==> forall i :: 0 <= i < count ==> r.value[i] == ReadSymbol(s.words, i, s.maxCodeLength)
  {
    hide ReadSymbol, Capacity, WordOf;
    var bits := s.maxCodeLength;
    if (bits != 4 && bits != 8) || s.lutSize != Levels(bits) {
      return None;
    }
    var result: seq<nat> := [];
    for i := 0 to count
      invariant |result| == i <= Capacity(|s.words|, bits)
      invariant forall k :: 0 <= k < i ==> result[k] == ReadSymbol(s.words, k, bits)
    {
      WordInside(i, |s.words|, bits);
      if WordOf(i, bits) >= |s.words| {
        return None;
      }
      result := result + [ReadSymbol(s.words, i, bits)];
    }
    r := Some(result);
  }

  lemma {:induction false} LowBits(v: nat, w: nat)
    ensures ToNat(FromNat(v, w)) == v % Pow2(w)
    decreases w
  {
    if w > 0 {
      var p := Pow2(w - 1);
      LowBits(v / 2, w - 1);
      assert FromNat(v, w)[1..] == FromNat(v / 2, w - 1);
      DivModRest(v, p);
    }
  }

  lemma DivModRest(v: nat, p: nat)
    requires p > 0
    ensures v % 2 + 2 * (v / 2 % p) == v % (2 * p)
  {
    var q, m := v / 2 / p, v / 2 % p;
    assert v / 2 == q * p + m;
    assert v == q * (2 * p) + (v % 2 + 2 * m);
    DivModUnique(v, 2 * p, q, v % 2 + 2 * m);
  }

  lemma LevelsArePowers(bits: nat)
    requires IsWidth(bits)
    ensures Levels(bits) == Pow2(bits)
  {
    assert Pow2(3) == 8 && Pow2(4) == 16;
    assert Pow2(5) == 32 && Pow2(6) == 64 && Pow2(7) == 128;
  }

  /** Main result: every symbol is read back modulo the width, so exactly when it fits the width. */
  lemma RoundTrip(symbols: seq<nat>, blockSize: nat, bits: nat, s: EncodedStream, i: nat)
    requires IsWidth(bits) && blockSize > 0 && Streamed(symbols, blockSize, bits, s) && i < |symbols|
    ensures i < Capacity(|s.words|, bits) && ReadSymbol(s.words, i, bits) == symbols[i] % Levels(bits)
    ensures ReadSymbol(s.words, i, bits) == symbols[i] <==> symbols[i] < Levels(bits)
  {
    hide ReadSymbol, SymbolBits, FromNat, ToNat, OffsetsTo, Capacity, Pow2, Levels;
    ReadSymbolIs(s.words, i, bits);
    LowBits(symbols[i], bits);
    LevelsArePowers(bits);
    SmallRemainder(symbols[i], Levels(bits));
  }

  lemma SmallRemainder(v: nat, m: nat)
    requires m > 0
    ensures v % m == v <==> v < m
  {
  }

  // ---- the stream as the device reads it --------------------------------------------------------------

  /** Bit n of the stream: word by word, each from its most significant bit down. */
  function StreamAt(words: seq<Word>, n: nat): bool
    requires n < 32 * |words|
  {
    words[n / 32][31 - n % 32]
  }

  /** Bit n of the symbols written one after another, each from its most significant bit down; nothing behind them. */
  function Written(symbols: seq<nat>, bits: nat, n: nat): bool
    requires bits > 0
  {
    n / bits < |symbols| && symbols[n / bits] / Pow2(bits - 1 - n % bits) % 2 == 1
  }

  lemma BitPlace(n: nat, bits: nat)
    requires IsWidth(bits)
    ensures n / 32 == WordOf(n / bits, bits)
    ensures 31 - n % 32 == ShiftOf(n / bits, bits) + (bits - 1 - n % bits)
  {
    if bits == 4 {
      assert n == n / 4 * 4 + n % 4;
    } else {
      assert n == n / 8 * 8 + n % 8;
    }
  }

  /** Main result: read from the most significant bits down, the words are the symbols in order. */
  lemma StreamBits(symbols: seq<nat>, blockSize: nat, bits: nat, s: EncodedStream, n: nat)
    requires IsWidth(bits) && blockSize > 0 && Streamed(symbols, blockSize, bits, s) && n < 32 * |s.words|
    ensures StreamAt(s.words, n) == Written(symbols, bits, n)
  {
    hide FromNat, OffsetsTo, ShiftOf, WordOf, Pow2;
    var i, k := n / bits, bits - 1 - n % bits;
    BitPlace(n, bits);
    WordInside(i, |s.words|, bits);
    assert StreamAt(s.words, n) == SymbolBits(s.words, i, bits)[k];
    if i < |symbols| {
      FromNatDigit(symbols[i], bits, k);
    } else {
      assert SymbolBits(s.words, i, bits) == Zeros(bits);
    }
  }

  /** Bit k of symbol t of a block stands that far behind the block's offset. */
  lemma BlockBegins(symbols: seq<nat>, blockSize: nat, bits: nat, s: EncodedStream, b: nat, t: nat, k: nat)
    requires IsWidth(bits) && blockSize > 0 && Streamed(symbols, blockSize, bits, s)
    requires b < |s.blockOffsets| && s.blockOffsets[b] >= 0 && b * blockSize + t < |symbols| && k < bits
    requires BitOf(b * blockSize, bits) < 0x8000_0000
    ensures var n := s.blockOffsets[b] + t * bits + k;
            && n < 32 * |s.words|
            && (StreamAt(s.words, n) <==> symbols[b * blockSize + t] / Pow2(bits - 1 - k) % 2 == 1)
  {
    hide StreamedTo, Pow2, StreamAt, BitOf;
    BlockOffset(symbols, blockSize, bits, s, b);
    SymbolPlace(b * blockSize, t, k, bits, |symbols|);
    StreamBits(symbols, blockSize, bits, s, s.blockOffsets[b] + t * bits + k);
  }

  lemma SymbolPlace(first: nat, t: nat, k: nat, bits: nat, count: nat)
    requires IsWidth(bits) && k < bits && first + t < count
    ensures var n := BitOf(first, bits) + t * bits + k;
            n / bits == first + t && n % bits == k && n < 32 * ((BitOf(count, bits) + 31) / 32)
  {
    if bits == 4 {
      assert BitOf(first, bits) + t * bits + k == (first + t) * 4 + k;
    } else {
      assert BitOf(first, bits) + t * bits + k == (first + t) * 8 + k;
    }
  }

  /** There is an offset for exactly each block, and it is where the block's first symbol starts exactly as long as that
      position fits 31 bits. */
  lemma BlockOffset(symbols: seq<nat>, blockSize: nat, bits: nat, s: EncodedStream, b: nat)
    requires IsWidth(bits) && blockSize > 0 && Streamed(symbols, blockSize, bits, s)
    ensures b < |s.blockOffsets| <==> b * blockSize < |symbols|
    ensures b < |s.blockOffsets| ==>
      (s.blockOffsets[b] == BitOf(b * blockSize, bits) <==> BitOf(b * blockSize, bits) < 0x8000_0000)
  {
    hide StreamedTo, BitOf;
    var n := |s.blockOffsets|;
    if b < n {
      RowInside(b, n, blockSize);
    } else {
      assert (b - n) * blockSize >= 0;
      assert b * blockSize == n * blockSize + (b - n) * blockSize;
    }
  }

  /** The first offset that does not fit: symbol 2^29 of a 4-bit stream in blocks of 2^29 starts at bit 2^31. */
  lemma BlockOffsetWraps(symbols: seq<nat>, s: EncodedStream)
    requires Streamed(symbols, 0x2000_0000, 4, s) && |symbols| == 0x2000_0001
    ensures |s.blockOffsets| == 2 && s.blockOffsets[1] == -0x8000_0000
  {
    hide StreamedTo;
  }
}
