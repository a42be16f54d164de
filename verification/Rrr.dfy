/** One 0/1 plane as an RRR bitvector: 15-bit blocks kept as a 4-bit class and a variable-width
    enumerative offset, with cumulative samples at every superblock of 64 blocks. */
module Rrr {
  import opened Bits
  import opened Enumerative

  const S: nat := 64

  // ---- what a plane's blocks are ---------------------------------------------------------

  function Blocks(n: nat): nat {
    (n + 14) / 15
  }

  function Superblocks(n: nat): nat {
    (Blocks(n) + S - 1) / S
  }

  /** Block j of the plane, padded with zeros behind its end. */
  function Block(plane: seq<bool>, j: nat): (bs: seq<bool>)
    ensures |bs| == 15
  {
    seq(15, c requires 0 <= c < 15 => 15 * j + c < |plane| && plane[15 * j + c])
  }

  function Class(plane: seq<bool>, j: nat): (r: nat)
    ensures r <= 15
  {
    Count(Block(plane, j))
  }

  /** The bit position at which block j's offset starts. */
  function OffsetAt(plane: seq<bool>, j: nat): (p: nat)
    ensures p <= 15 * j
  {
    if j == 0 then 0 else OffsetAt(plane, j - 1) + Width(Class(plane, j - 1))
  }

  /** The number of ones in the first j blocks. */
  function OnesBefore(plane: seq<bool>, j: nat): (n: nat)
    ensures n <= 15 * j
  {
    if j == 0 then 0 else OnesBefore(plane, j - 1) + Class(plane, j - 1)
  }

  /** The rank this structure answers: ones before position pos. */
  function Rank1(plane: seq<bool>, pos: nat): nat
    requires pos <= |plane|
  {
    Count(plane[..pos])
  }

  lemma CountBlock(plane: seq<bool>, j: nat, lo: nat, hi: nat)
    requires lo == Min(15 * j, |plane|) && hi == Min(15 * j + 15, |plane|)
    ensures Class(plane, j) == Count(plane[lo..hi])
  {
    var rest := Block(plane, j)[hi - lo..];
    assert Block(plane, j) == plane[lo..hi] + rest;
    CountAppend(plane[lo..hi], rest);
    CountNone(rest);
  }

  lemma {:induction false} OnesBeforeIsRank(plane: seq<bool>, j: nat)
    ensures OnesBefore(plane, j) == Rank1(plane, Min(15 * j, |plane|))
  {
    if j > 0 {
      var lo, hi := Min(15 * (j - 1), |plane|), Min(15 * j, |plane|);
      OnesBeforeIsRank(plane, j - 1);
      CountBlock(plane, j - 1, lo, hi);
      CountAppend(plane[..lo], plane[lo..hi]);
      assert plane[..hi] == plane[..lo] + plane[lo..hi];
    }
  }

  /** The rank inside a block: the whole blocks before it and its own first b bits. */
  lemma RankInBlock(plane: seq<bool>, j: nat, b: nat)
    requires b < 15 && 15 * j + b <= |plane|
    ensures Rank1(plane, 15 * j + b) == OnesBefore(plane, j) + Count(Block(plane, j)[..b])
  {
    hide Count, OnesBefore;
    OnesBeforeIsRank(plane, j);
    var part := plane[15 * j..15 * j + b];
    assert plane[..15 * j + b] == plane[..15 * j] + part;
    CountAppend(plane[..15 * j], part);
    assert Block(plane, j)[..b] == part;
  }

  lemma {:induction false} SamplesMonotone(plane: seq<bool>, i: nat, j: nat)
    requires i <= j
    ensures OnesBefore(plane, i) <= OnesBefore(plane, j) <= OnesBefore(plane, i) + 15 * (j - i)
    ensures OffsetAt(plane, i) <= OffsetAt(plane, j) <= OffsetAt(plane, i) + 15 * (j - i)
    decreases j - i
  {
    hide Class, Width;
    if i < j {
      SamplesMonotone(plane, i, j - 1);
    }
  }

  lemma OffsetNext(plane: seq<bool>, j: nat)
    ensures OffsetAt(plane, j + 1) == OffsetAt(plane, j) + Width(Class(plane, j))
    ensures OnesBefore(plane, j + 1) == OnesBefore(plane, j) + Class(plane, j)
  {
    hide Class, Width;
  }

  lemma OffsetFits(plane: seq<bool>, j: nat)
    ensures Offset(Block(plane, j)) < Binom(15, Class(plane, j)) <= Pow2(Width(Class(plane, j)))
  {
    hide Binom;
    OffsetBound(Block(plane, j));
  }

  // ---- what the word streams hold ----------------------------------------------------------

  /** All bits of the stream from position p on are clear. */
  ghost predicate ClearFrom(words: seq<Word>, p: nat) {
    forall q :: p <= q < 32 * |words| ==> !StreamBit(words, q)
  }

  ghost predicate SameBelow(a: seq<Word>, b: seq<Word>, p: nat) {
    |a| == |b| && forall q :: 0 <= q < p && q < 32 * |a| ==> StreamBit(a, q) == StreamBit(b, q)
  }

  ghost predicate ClassStored(words: seq<Word>, base: nat, plane: seq<bool>, j: nat) {
    && base + 4 * j + 4 <= 32 * |words|
    && Field(words, base + 4 * j, 4) == FromNat(Class(plane, j), 4)
  }

  ghost predicate OffsetStored(words: seq<Word>, base: nat, plane: seq<bool>, j: nat) {
    && base + OffsetAt(plane, j + 1) <= 32 * |words|
    && Field(words, base + OffsetAt(plane, j), Width(Class(plane, j)))
       == FromNat(Offset(Block(plane, j)), Width(Class(plane, j)))
  }

  lemma FieldSame(a: seq<Word>, b: seq<Word>, pos: nat, w: nat)
    requires SameBelow(a, b, pos + w) && pos + w <= 32 * |a|
    ensures Field(a, pos, w) == Field(b, pos, w)
  {
  }

  lemma ClassKept(a: seq<Word>, b: seq<Word>, plane: seq<bool>, j: nat, p: nat)
    requires ClassStored(a, 0, plane, j) && SameBelow(a, b, p) && 4 * j + 4 <= p
    ensures ClassStored(b, 0, plane, j)
  {
    FieldSame(a, b, 4 * j, 4);
  }

  lemma OffsetKept(a: seq<Word>, b: seq<Word>, plane: seq<bool>, j: nat, p: nat)
    requires OffsetStored(a, 0, plane, j) && SameBelow(a, b, p) && OffsetAt(plane, j + 1) <= p
    ensures OffsetStored(b, 0, plane, j)
  {
    FieldSame(a, b, OffsetAt(plane, j), Width(Class(plane, j)));
  }

  // ---- writing fields ------------------------------------------------------------------------

  /** One bit after a w-bit value has been ored in at word wi, bit b. */
  lemma OredBit(before: seq<Word>, after: seq<Word>, wi: nat, b: nat, x: seq<bool>, w: nat, u: nat, i: nat)
    requires |after| == |before| && |x| == 64 && w <= 32 && b < 32 && u < |before| && i < 32
    requires wi < |before| && (b + w > 32 ==> wi + 1 < |before|)
    requires forall k :: w <= k < 64 ==> !x[k]
    requires 32 * u + i >= 32 * wi + b ==> !before[u][i]
    requires after[wi] == Or(before[wi], Shl(x, b)[..32])
    requires b + w > 32 ==> after[wi + 1] == Or(before[wi + 1], Shr(x, 32 - b)[..32])
    requires forall k :: 0 <= k < |before| && k != wi && (b + w > 32 ==> k != wi + 1) ==> after[k] == before[k]
    ensures after[u][i] == (if 32 * u + i < 32 * wi + b then before[u][i]
                            else 32 * u + i < 32 * wi + b + w && x[32 * u + i - (32 * wi + b)])
  {
  }

  /** Ors a w-bit value into the stream at pos, into one word or across two. */
  method OrField(words: array<Word>, pos: nat, v: nat, w: nat)
    requires w <= 32 && v < Pow2(w) && pos + w <= 32 * words.Length && pos < 32 * words.Length
    requires ClearFrom(words[..], pos)
    modifies words
    ensures SameBelow(old(words[..]), words[..], pos)
    ensures Field(words[..], pos, w) == FromNat(v, w)
    ensures ClearFrom(words[..], pos + w)
  {
    hide FromNat, Pow2;
    var wi, b := pos / 32, pos % 32;
    var x := FromNat(v, 64);
    ghost var before := words[..];
    assert forall k :: 0 <= k < w ==> x[k] == FromNat(v, w)[k] by { FromNatSplit(v, w, 64); }
    assert forall k :: w <= k < 64 ==> !x[k] by { FromNatSplit(v, w, 64); }
    words[wi] := Or(words[wi], Shl(x, b)[..32]);
    if b + w > 32 {
      words[wi + 1] := Or(words[wi + 1], Shr(x, 32 - b)[..32]);
    }
    forall q | 0 <= q < 32 * words.Length
      ensures StreamBit(words[..], q) == (if q < pos then StreamBit(before, q) else q < pos + w && x[q - pos])
    {
      assert q >= pos ==> !StreamBit(before, q);
      OredBit(before, words[..], wi, b, x, w, q / 32, q % 32);
    }
  }

  // ---- encoding a plane ------------------------------------------------------------------------

  datatype RrrPlane = RrrPlane(cpk: seq<Word>, opk: seq<Word>, sbrank: seq<int>, sboff: seq<int>,
                               nblocks: nat, nsb: nat, cwords: nat, classBits: nat, offsetBits: nat, zeros: int)

  /** The block at which superblock sample i is taken. */
  function SampleBlock(n: nat, i: nat): (j: nat)
    ensures j <= Blocks(n)
  {
    Min(64 * i, Blocks(n))
  }

  /** The encoding holds the plane: every class and offset can be read back, every sample is exact. */
  ghost predicate Encodes(e: RrrPlane, plane: seq<bool>) {
    var n := |plane|;
    && e.nblocks == Blocks(n) && e.nsb == Superblocks(n)
    && e.cwords == (4 * Blocks(n) + 31) / 32 + 1 == |e.cpk|
    && |e.opk| == (OffsetAt(plane, Blocks(n)) + 31) / 32 + 2
    && ClassesStored(e.cpk, plane, Blocks(n))
    && OffsetsStored(e.opk, plane, Blocks(n))
    && |e.sbrank| == e.nsb + 1 && |e.sboff| == e.nsb + 1
    && (forall i :: 0 <= i <= e.nsb ==> e.sbrank[i] == OnesBefore(plane, SampleBlock(n, i)))
    && (forall i :: 0 <= i <= e.nsb ==> e.sboff[i] == OffsetAt(plane, SampleBlock(n, i)))
    && e.zeros == n - Count(plane)
    && e.classBits == 4 * Blocks(n) && e.offsetBits == OffsetAt(plane, Blocks(n))
  }

  /** Class and offset of one block, bit by bit. */
  method EncodeBlock(plane: seq<bool>, blk: nat) returns (r: nat, o: nat)
    ensures r == Class(plane, blk) && o == Offset(Block(plane, blk))
    ensures o < Pow2(Width(r))
  {
    r, o := 0, 0;
    ghost var block := Block(plane, blk);
    for c := 0 to 15
      invariant r == Count(block[..c]) && o == Offset(block[..c])
    {
      var idx := blk * 15 + c;
      var bit := idx < |plane| && plane[idx];
      assert block[..c + 1][..c] == block[..c] && block[c] == bit;
      if bit {
        r := r + 1;
        o := o + Binom(c, r);
      }
    }
    assert block[..15] == block;
    OffsetBound(block);
  }

  /** The classes, offsets and offset positions of the first blocks. */
  ghost predicate Measured(plane: seq<bool>, cls: seq<nat>, off: seq<nat>, ostart: seq<nat>) {
    && |off| == |cls| && |ostart| == |cls| + 1
    && (forall j :: 0 <= j < |cls| ==> cls[j] == Class(plane, j))
    && (forall j :: 0 <= j < |cls| ==> off[j] == Offset(Block(plane, j)))
    && (forall j :: 0 <= j <= |cls| ==> ostart[j] == OffsetAt(plane, j))
  }

  lemma MeasuredNext(plane: seq<bool>, cls: seq<nat>, off: seq<nat>, ostart: seq<nat>)
    requires Measured(plane, cls, off, ostart)
    ensures var r := Class(plane, |cls|);
            Measured(plane, cls + [r], off + [Offset(Block(plane, |cls|))], ostart + [ostart[|cls|] + Width(r)])
  {
    hide OffsetAt, Class, Offset, Block, Width;
    OffsetNext(plane, |cls|);
    var r, o, p := Class(plane, |cls|), Offset(Block(plane, |cls|)), OffsetAt(plane, |cls| + 1);
    assert forall j :: 0 <= j <= |cls| ==> (cls + [r])[j] == Class(plane, j);
    assert forall j :: 0 <= j <= |cls| ==> (off + [o])[j] == Offset(Block(plane, j));
    assert forall j :: 0 <= j <= |cls| + 1 ==> (ostart + [p])[j] == OffsetAt(plane, j);
  }

  ghost predicate ClassesStored(words: seq<Word>, plane: seq<bool>, m: nat) {
    forall j :: 0 <= j < m ==> ClassStored(words, 0, plane, j)
  }

  ghost predicate OffsetsStored(words: seq<Word>, plane: seq<bool>, m: nat) {
    forall j :: 0 <= j < m ==> OffsetStored(words, 0, plane, j)
  }

  lemma NothingStored(words: seq<Word>, plane: seq<bool>)
    requires forall i :: 0 <= i < |words| ==> words[i] == Zeros(32)
    ensures ClearFrom(words, 0) && ClassesStored(words, plane, 0) && OffsetsStored(words, plane, 0)
    ensures Measured(plane, [], [], [0]) && OffsetAt(plane, 0) == 0
  {
  }

  /** The class stream, and the class, offset and offset position of every block. */
  method PackClasses(plane: seq<bool>) returns (cpk: seq<Word>, cls: seq<nat>, off: seq<nat>, ostart: seq<nat>)
    ensures |cpk| == (4 * Blocks(|plane|) + 31) / 32 + 1
    ensures |cls| == Blocks(|plane|) && Measured(plane, cls, off, ostart)
    ensures ClassesStored(cpk, plane, |cls|)
  {
    hide ClassesStored, ClearFrom, Width, Class, Offset, OffsetAt;
    var nblocks := (|plane| + 14) / 15;
    var words := new Word[(nblocks * 4 + 31) / 32 + 1](i => Zeros(32));
    cls, off, ostart := [], [], [0];
    NothingStored(words[..], plane);
    for blk := 0 to nblocks
      invariant |cls| == blk && Measured(plane, cls, off, ostart)
      invariant ClassesStored(words[..], plane, blk)
      invariant ClearFrom(words[..], 4 * blk)
    {
      MeasuredNext(plane, cls, off, ostart);
      var r, o := EncodeBlock(plane, blk);
      StoreClass(words, plane, blk, r);
      cls, off, ostart := cls + [r], off + [o], ostart + [ostart[blk] + Width(r)];
    }
    cpk := words[..];
  }

  method StoreClass(cpk: array<Word>, plane: seq<bool>, blk: nat, r: nat)
    requires r == Class(plane, blk) && 4 * blk + 4 <= 32 * cpk.Length
    requires ClassesStored(cpk[..], plane, blk)
    requires ClearFrom(cpk[..], 4 * blk)
    modifies cpk
    ensures ClassesStored(cpk[..], plane, blk + 1)
    ensures ClearFrom(cpk[..], 4 * blk + 4)
  {
    hide Class, FromNat;
    ghost var before := cpk[..];
    assert Pow2(4) == 16;
    OrField(cpk, blk * 4, r, 4);
    forall j | 0 <= j < blk
      ensures ClassStored(cpk[..], 0, plane, j)
    {
      ClassKept(before, cpk[..], plane, j, 4 * blk);
    }
  }

  /** The offset stream. */
  method PackOffsets(plane: seq<bool>, cls: seq<nat>, off: seq<nat>, ostart: seq<nat>) returns (opk: seq<Word>)
    requires Measured(plane, cls, off, ostart)
    ensures |opk| == (OffsetAt(plane, |cls|) + 31) / 32 + 2
    ensures OffsetsStored(opk, plane, |cls|)
  {
    hide OffsetsStored, ClearFrom, Width, Class, Offset, OffsetAt;
    var total := ostart[|cls|];
    var words := new Word[(total + 31) / 32 + 2](i => Zeros(32));
    NothingStored(words[..], plane);
    for blk := 0 to |cls|
      invariant OffsetsStored(words[..], plane, blk)
      invariant ClearFrom(words[..], OffsetAt(plane, blk))
    {
      OffsetNext(plane, blk);
      SamplesMonotone(plane, blk + 1, |cls|);
      StoreOffset(words, plane, blk, ostart[blk], off[blk], Width(cls[blk]));
    }
    opk := words[..];
  }

  /** Stores one block's offset behind those of the blocks before it. */
  method StoreOffset(opk: array<Word>, plane: seq<bool>, blk: nat, start: nat, off: nat, w: nat)
    requires start == OffsetAt(plane, blk) && off == Offset(Block(plane, blk)) && w == Width(Class(plane, blk))
    requires start + w + 64 <= 32 * opk.Length
    requires OffsetsStored(opk[..], plane, blk)
    requires ClearFrom(opk[..], start)
    modifies opk
    ensures OffsetsStored(opk[..], plane, blk + 1)
    ensures ClearFrom(opk[..], OffsetAt(plane, blk + 1))
  {
    hide Class, Offset, FromNat, Count, OffsetsStored, OffsetAt, SameBelow, ClearFrom, Width, Block, Field, Pow2;
    ghost var before := opk[..];
    if w != 0 {
      OffsetFits(plane, blk);
      OrField(opk, start, off, w);
    } else {
      SameWords(before, start);
    }
    OffsetNext(plane, blk);
    StoredSoFar(before, opk[..], plane, blk);
    StoredNext(opk[..], plane, blk);
  }

  lemma SameWords(words: seq<Word>, p: nat)
    ensures SameBelow(words, words, p)
  {
  }

  lemma StoredNext(words: seq<Word>, plane: seq<bool>, blk: nat)
    requires OffsetsStored(words, plane, blk) && OffsetStored(words, 0, plane, blk)
    ensures OffsetsStored(words, plane, blk + 1)
  {
    hide OffsetStored;
  }

  lemma StoredSoFar(before: seq<Word>, after: seq<Word>, plane: seq<bool>, blk: nat)
    requires OffsetsStored(before, plane, blk)
    requires SameBelow(before, after, OffsetAt(plane, blk))
    ensures OffsetsStored(after, plane, blk)
  {
    hide OffsetStored, SameBelow, OffsetAt;
    forall j | 0 <= j < blk
      ensures OffsetStored(after, 0, plane, j)
    {
      SamplesMonotone(plane, j + 1, blk);
      OffsetKept(before, after, plane, j, OffsetAt(plane, blk));
    }
  }

  method AccumulateClasses(plane: seq<bool>, cls: seq<nat>) returns (cumClass: seq<nat>)
    requires forall j :: 0 <= j < |cls| ==> cls[j] == Class(plane, j)
    ensures |cumClass| == |cls| + 1
    ensures forall j :: 0 <= j <= |cls| ==> cumClass[j] == OnesBefore(plane, j)
  {
    hide Class;
    cumClass := [0];
    for blk := 0 to |cls|
      invariant |cumClass| == blk + 1
      invariant forall j :: 0 <= j <= blk ==> cumClass[j] == OnesBefore(plane, j)
    {
      cumClass := cumClass + [cumClass[blk] + cls[blk]];
    }
  }

  /** Samples of a cumulative count at the superblock boundaries, as signed 32-bit integers. */
  method TakeSamples(cum: seq<nat>) returns (samples: seq<int>)
    requires |cum| > 0 && forall j :: 0 <= j < |cum| ==> cum[j] < 0x8000_0000
    ensures |samples| == (|cum| - 1 + 63) / 64 + 1
    ensures forall i :: 0 <= i < |samples| ==> samples[i] == cum[Min(64 * i, |cum| - 1)]
  {
    var nsb := (|cum| - 1 + 63) / 64;
    samples := [];
    for i := 0 to nsb + 1
      invariant |samples| == i
      invariant forall j :: 0 <= j < i ==> samples[j] == cum[Min(64 * j, |cum| - 1)]
    {
      samples := samples + [Int32(cum[Min(i * 64, |cum| - 1)])];
    }
  }

  /** Packs all classes, then all offsets, and takes the samples. */
  method RrrEncode(plane: seq<bool>) returns (e: RrrPlane)
    requires |plane| < 0x7fff_ff00
    ensures Encodes(e, plane)
  {
    hide Class, OffsetAt, OnesBefore, ClassesStored, OffsetsStored, Count, Offset;
    var cpk, cls, off, ostart := PackClasses(plane);
    var opk := PackOffsets(plane, cls, off, ostart);
    var cumClass := AccumulateClasses(plane, cls);
    var sbrank := TakeSamples(cumClass);
    var sboff := TakeSamples(ostart);
    var nblocks := |cls|;
    OnesBeforeIsRank(plane, nblocks);
    assert plane[..|plane|] == plane;
    e := RrrPlane(cpk, opk, sbrank, sboff, nblocks, |sbrank| - 1, |cpk|, nblocks * 4, ostart[nblocks],
                  |plane| - cumClass[nblocks]);
  }
}
