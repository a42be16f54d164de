/** Rank queries on one level of the assembled index: samples, then a scan of classes, then one
    decoded block. */
module LevelRank {
  import opened Bits
  import opened Enumerative
  import opened Rrr
  import opened Samples

  datatype RrrWavelet = RrrWavelet(bits: nat, cwords: nat, nsb: nat, na: nat,
                                   classes: seq<Word>, offsets: seq<Word>,
                                   rankA: seq<int>, rankD: seq<nat>, offA: seq<int>, offD: seq<nat>,
                                   offbase: seq<int>, zeros: seq<int>)

  ghost predicate StreamsHold(classes: seq<Word>, offsets: seq<Word>, first: nat, base: nat, plane: seq<bool>) {
    && (forall j :: 0 <= j < Blocks(|plane|) ==> ClassStored(classes, 32 * first, plane, j))
    && (forall j :: 0 <= j < Blocks(|plane|) ==> OffsetStored(offsets, base, plane, j))
  }

  /** Everything a rank query on level lvl reads belongs to this plane. */
  ghost predicate LevelHolds(w: RrrWavelet, lvl: nat, plane: seq<bool>) {
    && lvl < |w.offbase| && lvl < |w.zeros|
    && w.nsb == Superblocks(|plane|)
    && 0 <= w.offbase[lvl]
    && StreamsHold(w.classes, w.offsets, lvl * w.cwords, w.offbase[lvl], plane)
    && RowExact(w.rankA, w.rankD, w.na, lvl, RankSamples(plane))
    && RowExact(w.offA, w.offD, w.na, lvl, OffsetSamples(plane))
    && w.zeros[lvl] == |plane| - Count(plane)
  }

  /** The class of block j in the class words from word `first` on. */
  function ClassAt(classes: seq<Word>, first: nat, j: nat): (cl: nat)
    requires 32 * first + 4 * j + 4 <= 32 * |classes|
    ensures cl == ToNat(Field(classes, 32 * first + 4 * j, 4))
  {
    var bp := j * 4;
    var bs := And(Shr(classes[first + bp / 32], bp % 32), LowMask(32, 4));
    assert bs == Field(classes, 32 * first + 4 * j, 4) + Zeros(28) by {
      assert (32 * first + 4 * j) / 32 == first + bp / 32;
    }
    ToNatPadded(Field(classes, 32 * first + 4 * j, 4), 28);
    ToNat(bs)
  }

  /** Reads `width` bits at any bit position, from one word or from two. */
  function ReadBits(stream: seq<Word>, bitpos: nat, width: nat): (v: nat)
    requires width <= 32 && bitpos + width <= 32 * |stream|
    ensures v == ToNat(Field(stream, bitpos, width))
  {
    if width == 0 then 0
    else
      var wi, b := bitpos / 32, bitpos % 32;
      var low := Shr(stream[wi], b);
      var both := if b + width > 32 then Or(low, Shl(stream[wi + 1], 32 - b)) else low;
      var bs := And(both, LowMask(32, width));
      StraddlingBits(stream, wi, b, width, both);
      ToNatPadded(Field(stream, bitpos, width), 32 - width);
      ToNat(bs)
  }

  lemma StraddlingBits(stream: seq<Word>, wi: nat, b: nat, width: nat, both: seq<bool>)
    requires 0 < width <= 32 && b < 32 && 32 * wi + b + width <= 32 * |stream|
    requires both == if b + width > 32 then Or(Shr(stream[wi], b), Shl(stream[wi + 1], 32 - b))
                     else Shr(stream[wi], b)
    ensures And(both, LowMask(32, width)) == Field(stream, 32 * wi + b, width) + Zeros(32 - width)
  {
    var f := Field(stream, 32 * wi + b, width);
    forall i | 0 <= i < 32
      ensures And(both, LowMask(32, width))[i] == (f + Zeros(32 - width))[i]
    {
      if i < width {
        assert (32 * wi + b + i) / 32 == if b + i < 32 then wi else wi + 1;
      }
    }
  }

  /** What the two streams say about block j, whose offset starts at bit obit. */
  ghost predicate BlockReadable(classes: seq<Word>, offsets: seq<Word>, first: nat, obit: nat, j: nat,
                                block: seq<bool>) {
    && |block| == 15
    && 32 * first + 4 * j + 4 <= 32 * |classes|
    && ClassAt(classes, first, j) == Count(block)
    && obit + Width(Count(block)) <= 32 * |offsets|
    && ReadBits(offsets, obit, Width(Count(block))) == Offset(block)
  }

  lemma ReadableClass(classes: seq<Word>, first: nat, plane: seq<bool>, j: nat)
    requires ClassStored(classes, 32 * first, plane, j)
    ensures ClassAt(classes, first, j) == Class(plane, j)
  {
    hide Class;
    assert Pow2(4) == 16;
    FromNatToNat(Class(plane, j), 4);
  }

  lemma ReadableOffset(offsets: seq<Word>, base: nat, plane: seq<bool>, j: nat)
    requires OffsetStored(offsets, base, plane, j)
    ensures base + OffsetAt(plane, j) + Width(Class(plane, j)) <= 32 * |offsets|
    ensures ReadBits(offsets, base + OffsetAt(plane, j), Width(Class(plane, j))) == Offset(Block(plane, j))
  {
    hide Class, Offset, OffsetAt, Width, Binom, ReadBits, FromNat, Pow2, ToNat;
    OffsetNext(plane, j);
    OffsetFits(plane, j);
    FromNatToNat(Offset(Block(plane, j)), Width(Class(plane, j)));
  }

  lemma StoredIsReadable(classes: seq<Word>, offsets: seq<Word>, first: nat, base: nat, plane: seq<bool>, j: nat)
    requires StreamsHold(classes, offsets, first, base, plane) && j < Blocks(|plane|)
    ensures BlockReadable(classes, offsets, first, base + OffsetAt(plane, j), j, Block(plane, j))
  {
    hide Count, Offset, OffsetAt, Width, ClassAt, ReadBits, Block, FromNat;
    assert ClassStored(classes, 32 * first, plane, j) && OffsetStored(offsets, base, plane, j);
    ReadableClass(classes, first, plane, j);
    ReadableOffset(offsets, base, plane, j);
  }

  lemma StoredClass(classes: seq<Word>, offsets: seq<Word>, first: nat, base: nat, plane: seq<bool>, j: nat)
    requires StreamsHold(classes, offsets, first, base, plane) && j < Blocks(|plane|)
    ensures 32 * first + 4 * j + 4 <= 32 * |classes| && ClassAt(classes, first, j) == Class(plane, j)
  {
    hide Class, ClassAt;
    assert ClassStored(classes, 32 * first, plane, j);
    ReadableClass(classes, first, plane, j);
  }

  /** The stored class and offset of a block give the block back. */
  method ReadBlock(classes: seq<Word>, offsets: seq<Word>, first: nat, obit: nat, blk: nat, ghost block: seq<bool>)
    returns (word: Word)
    requires BlockReadable(classes, offsets, first, obit, blk, block)
    ensures word[..15] == block
  {
    hide ClassAt, ReadBits, Offset, Count, Width, Binom;
    OffsetBound(block);
    var cl := ClassAt(classes, first, blk);
    var off := ReadBits(offsets, obit, Width(cl));
    word := DecodeWord(cl, off);
    OffsetInjective(word[..15], block);
  }

  /** The scan over the classes of the blocks between a superblock boundary and block blk. */
  method ScanClasses(w: RrrWavelet, first: nat, ghost base: nat, ghost plane: seq<bool>, from: nat, blk: nat,
                     r0: int, obit0: int)
    returns (r: int, obit: int)
    requires StreamsHold(w.classes, w.offsets, first, base, plane)
    requires from <= blk <= Blocks(|plane|)
    requires r0 == OnesBefore(plane, from) && obit0 == OffsetAt(plane, from)
    ensures r == OnesBefore(plane, blk) && obit == OffsetAt(plane, blk)
  {
    hide ClassAt, OffsetAt, StreamsHold, Class, Width, OnesBefore;
    r, obit := r0, obit0;
    for j := from to blk
      invariant r == OnesBefore(plane, j) && obit == OffsetAt(plane, j)
    {
      StoredClass(w.classes, w.offsets, first, base, plane, j);
      OffsetNext(plane, j);
      var cl := ClassAt(w.classes, first, j);
      r := r + cl;
      obit := obit + Width(cl);
    }
  }

  /** Ones among the first b bits of block blk. */
  method CountInBlock(w: RrrWavelet, first: nat, ghost base: nat, obit: nat, ghost plane: seq<bool>, blk: nat, b: nat)
    returns (n: nat)
    requires StreamsHold(w.classes, w.offsets, first, base, plane)
    requires blk < Blocks(|plane|) && b < 15 && obit == base + OffsetAt(plane, blk)
    ensures n == Count(Block(plane, blk)[..b])
  {
    hide Count, StreamsHold, BlockReadable, Block, OffsetAt;
    StoredIsReadable(w.classes, w.offsets, first, base, plane, blk);
    var word := ReadBlock(w.classes, w.offsets, first, obit, blk, Block(plane, blk));
    MaskedCount(word, b);
    assert word[..b] == word[..15][..b];
    n := Count(And(word, LowMask(32, b)));
  }

  /** The entry of a two-level table for superblock sbi of level lvl. */
  function SampleAt(anchors: seq<int>, delta: seq<nat>, na: nat, nsb1: nat, lvl: nat, sbi: nat): int
    requires lvl * na + sbi / 32 < |anchors| && lvl * nsb1 + sbi < |delta|
  {
    anchors[lvl * na + sbi / 32] + delta[lvl * nsb1 + sbi]
  }

  lemma SamplesRead(w: RrrWavelet, lvl: nat, plane: seq<bool>, sbi: nat)
    requires LevelHolds(w, lvl, plane) && 64 * sbi <= Blocks(|plane|)
    ensures lvl * w.na + sbi / 32 < |w.rankA| && lvl * (w.nsb + 1) + sbi < |w.rankD|
    ensures lvl * w.na + sbi / 32 < |w.offA| && lvl * (w.nsb + 1) + sbi < |w.offD|
    ensures SampleAt(w.rankA, w.rankD, w.na, w.nsb + 1, lvl, sbi) == OnesBefore(plane, 64 * sbi)
    ensures SampleAt(w.offA, w.offD, w.na, w.nsb + 1, lvl, sbi) == OffsetAt(plane, 64 * sbi)
  {
    hide StreamsHold, OffsetAt, OnesBefore;
    assert sbi < |RankSamples(plane)| && sbi < |OffsetSamples(plane)|;
    assert RankSamples(plane)[sbi] == OnesBefore(plane, 64 * sbi);
    assert OffsetSamples(plane)[sbi] == OffsetAt(plane, 64 * sbi);
  }

  /** Ones before position pos on level lvl, for every position up to and including the end. */
  method Rank1Level(w: RrrWavelet, lvl: nat, ghost plane: seq<bool>, pos: nat) returns (r: int)
    requires LevelHolds(w, lvl, plane) && pos <= |plane|
    ensures r == Rank1(plane, pos)
  {
    hide OnesBefore, OffsetAt, StreamsHold, RowExact, Rank1, Count, Block, SampleAt;
    var blk, b := pos / 15, pos % 15;
    var sbi := blk / 64;
    var first := lvl * w.cwords;
    SamplesRead(w, lvl, plane, sbi);
    RankInBlock(plane, blk, b);
    r := SampleAt(w.rankA, w.rankD, w.na, w.nsb + 1, lvl, sbi);
    var obit := SampleAt(w.offA, w.offD, w.na, w.nsb + 1, lvl, sbi);
    r, obit := ScanClasses(w, first, w.offbase[lvl], plane, sbi * 64, blk, r, obit);
    if b > 0 {
      var inside := CountInBlock(w, first, w.offbase[lvl], w.offbase[lvl] + obit, plane, blk, b);
      r := r + inside;
    }
  }
}
