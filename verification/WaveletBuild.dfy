/** Assembling the wavelet index level by level: encode the plane, append its streams and samples,
    partition the symbols; then split every level's samples. */
module WaveletBuild {
  import opened Arithmetic
  import opened Bits
  import opened Enumerative
  import opened Rrr
  import opened Samples
  import opened LevelRank
  import opened Wavelet
  import opened WaveletIndex

  // ---- row-major tables ---------------------------------------------------------------------

  /** Row k of a table whose rows are `width` long. */
  function Row(table: seq<int>, k: nat, width: nat): (r: seq<int>)
    requires k * width + width <= |table|
    ensures |r| == width
  {
    table[k * width..k * width + width]
  }

  /** A plane's rank samples or its offset samples. */
  function CumOf(plane: seq<bool>, ranks: bool): (cum: seq<int>)
    ensures |cum| == Superblocks(|plane|) + 1
  {
    if ranks then RankSamples(plane) else OffsetSamples(plane)
  }

  /** A table of rows, the k-th being the samples of the k-th plane. */
  ghost predicate Table(table: seq<int>, rows: nat, width: nat, planes: seq<seq<bool>>, ranks: bool) {
    && rows <= |planes| && |table| == rows * width
    && (forall k :: 0 <= k < rows ==> IsRow(table, k, width, planes[k], ranks))
  }

  ghost predicate IsRow(table: seq<int>, k: nat, width: nat, plane: seq<bool>, ranks: bool) {
    && k * width + width <= |table|
    && Row(table, k, width) == CumOf(plane, ranks)
  }

  lemma TableNext(table: seq<int>, rows: nat, width: nat, planes: seq<seq<bool>>, ranks: bool, row: seq<int>)
    requires Table(table, rows, width, planes, ranks) && rows < |planes|
    requires |row| == width && row == CumOf(planes[rows], ranks)
    ensures Table(table + row, rows + 1, width, planes, ranks)
  {
    hide CumOf;
    assert (rows + 1) * width == rows * width + width;
    forall k | 0 <= k < rows + 1
      ensures IsRow(table + row, k, width, planes[k], ranks)
    {
      if k < rows {
        assert IsRow(table, k, width, planes[k], ranks);
        RowInside(k, rows, width);
        assert Row(table + row, k, width) == Row(table, k, width);
      } else {
        assert k == rows && k * width == |table|;
        assert Row(table + row, k, width) == row;
      }
    }
  }

  // ---- the streams of the levels ------------------------------------------------------------

  lemma StreamsGrow(classes: seq<Word>, offsets: seq<Word>, more: seq<Word>, moreOffsets: seq<Word>,
                    first: nat, base: nat, plane: seq<bool>)
    requires StreamsHold(classes, offsets, first, base, plane)
    ensures StreamsHold(classes + more, offsets + moreOffsets, first, base, plane)
  {
    hide Class, OffsetAt, Offset, FromNat, Width, Block, Field;
    forall j | 0 <= j < Blocks(|plane|)
      ensures ClassStored(classes + more, 32 * first, plane, j)
    {
      assert ClassStored(classes, 32 * first, plane, j);
      FieldInPrefix(classes, more, 32 * first + 4 * j, 4);
    }
    forall j | 0 <= j < Blocks(|plane|)
      ensures OffsetStored(offsets + moreOffsets, base, plane, j)
    {
      assert OffsetStored(offsets, base, plane, j);
      OffsetNext(plane, j);
      FieldInPrefix(offsets, moreOffsets, base + OffsetAt(plane, j), Width(Class(plane, j)));
    }
  }

  lemma StreamsAppended(classes: seq<Word>, offsets: seq<Word>, e: RrrPlane, plane: seq<bool>)
    requires Encodes(e, plane)
    ensures StreamsHold(classes + e.cpk, offsets + e.opk, |classes|, 32 * |offsets|, plane)
  {
    hide Class, OffsetAt, Offset, FromNat, Width, Block, Field, OnesBefore, Count;
    forall j | 0 <= j < Blocks(|plane|)
      ensures ClassStored(classes + e.cpk, 32 * |classes|, plane, j)
    {
      assert ClassStored(e.cpk, 0, plane, j);
      FieldInSuffix(classes, e.cpk, 4 * j, 4);
    }
    forall j | 0 <= j < Blocks(|plane|)
      ensures OffsetStored(offsets + e.opk, 32 * |offsets|, plane, j)
    {
      assert OffsetStored(e.opk, 0, plane, j);
      OffsetNext(plane, j);
      FieldInSuffix(offsets, e.opk, OffsetAt(plane, j), Width(Class(plane, j)));
    }
  }

  function Planes(text: seq<int>, bits: nat): (planes: seq<seq<bool>>)
    ensures |planes| == bits && forall k :: 0 <= k < bits ==> planes[k] == LevelPlane(text, bits, k)
  {
    seq(bits, k requires 0 <= k < bits => LevelPlane(text, bits, k))
  }

  /** The first `rows` levels are in the streams. */
  ghost predicate LevelsStored(classes: seq<Word>, offsets: seq<Word>, offbase: seq<int>, zeros: seq<int>,
                               cwords: nat, planes: seq<seq<bool>>, rows: nat) {
    && rows <= |planes| && |offbase| == |zeros| == rows && |classes| == rows * cwords
    && (forall k :: 0 <= k < rows ==> LevelStored(classes, offsets, offbase[k], zeros[k], cwords, planes[k], k))
  }

  ghost predicate LevelStored(classes: seq<Word>, offsets: seq<Word>, base: int, zero: int, cwords: nat,
                              plane: seq<bool>, k: nat) {
    && 0 <= base && zero == |plane| - Count(plane)
    && StreamsHold(classes, offsets, k * cwords, base, plane)
  }

  lemma LevelKept(classes: seq<Word>, offsets: seq<Word>, base: int, zero: int, cwords: nat, plane: seq<bool>, k: nat,
                  more: seq<Word>, moreOffsets: seq<Word>)
    requires LevelStored(classes, offsets, base, zero, cwords, plane, k)
    ensures LevelStored(classes + more, offsets + moreOffsets, base, zero, cwords, plane, k)
  {
    hide StreamsHold, Count;
    StreamsGrow(classes, offsets, more, moreOffsets, k * cwords, base, plane);
  }

  lemma LevelAdded(classes: seq<Word>, offsets: seq<Word>, cwords: nat, plane: seq<bool>, k: nat, e: RrrPlane)
    requires Encodes(e, plane) && |classes| == k * cwords
    ensures LevelStored(classes + e.cpk, offsets + e.opk, 32 * |offsets|, e.zeros, cwords, plane, k)
  {
    hide StreamsHold, Count, ClassesStored, OffsetsStored, OffsetAt, OnesBefore;
    StreamsAppended(classes, offsets, e, plane);
  }

  lemma LevelsNext(classes: seq<Word>, offsets: seq<Word>, offbase: seq<int>, zeros: seq<int>,
                   cwords: nat, planes: seq<seq<bool>>, rows: nat, e: RrrPlane)
    requires LevelsStored(classes, offsets, offbase, zeros, cwords, planes, rows)
    requires rows < |planes| && Encodes(e, planes[rows]) && |e.cpk| == cwords
    ensures LevelsStored(classes + e.cpk, offsets + e.opk, offbase + [32 * |offsets|], zeros + [e.zeros],
                         cwords, planes, rows + 1)
  {
    hide Encodes, LevelStored;
    assert (rows + 1) * cwords == rows * cwords + cwords;
    forall k | 0 <= k < rows + 1
      ensures LevelStored(classes + e.cpk, offsets + e.opk, (offbase + [32 * |offsets|])[k],
                          (zeros + [e.zeros])[k], cwords, planes[k], k)
    {
      if k < rows {
        LevelKept(classes, offsets, offbase[k], zeros[k], cwords, planes[k], k, e.cpk, e.opk);
      } else {
        LevelAdded(classes, offsets, cwords, planes[k], k, e);
      }
    }
  }

  /** The stable partition by two passes over the symbols. */
  method PartitionPasses(cur: seq<int>, shift: nat, plane: seq<bool>) returns (nxt: seq<int>)
    requires plane == Plane(cur, shift)
    ensures nxt == Partition(cur, shift)
  {
    nxt := [];
    for i := 0 to |cur|
      invariant nxt == Select(cur[..i], shift, false)
    {
      assert cur[..i + 1][..i] == cur[..i];
      if !plane[i] {
        nxt := nxt + [cur[i]];
      }
    }
    assert cur[..|cur|] == cur;
    for i := 0 to |cur|
      invariant nxt == Select(cur, shift, false) + Select(cur[..i], shift, true)
    {
      assert cur[..i + 1][..i] == cur[..i];
      if plane[i] {
        nxt := nxt + [cur[i]];
      }
    }
  }

  /** Offset words one level can take. */
  lemma OffsetWordsBound(e: RrrPlane, plane: seq<bool>)
    requires Encodes(e, plane)
    ensures 32 * |e.opk| <= |plane| + 109
    ensures |e.cpk| == (4 * Blocks(|plane|) + 31) / 32 + 1
    ensures e.sbrank == RankSamples(plane) && e.sboff == OffsetSamples(plane)
  {
    hide Class, OffsetAt, OnesBefore, ClassesStored, OffsetsStored, Count;
  }

  /** Encodes every level, appending streams, samples and counts of zeros. */
  method EncodeLevels(text: seq<int>, bits: nat)
    returns (classes: seq<Word>, offsets: seq<Word>, offbase: seq<int>, zeros: seq<int>,
             sbrankAll: seq<int>, sboffAll: seq<int>)
    requires bits * (|text| + 109) < 0x8000_0000 && |text| < 0x7fff_ff00
    ensures LevelsStored(classes, offsets, offbase, zeros, (4 * Blocks(|text|) + 31) / 32 + 1, Planes(text, bits), bits)
    ensures Table(sbrankAll, bits, Superblocks(|text|) + 1, Planes(text, bits), true)
    ensures Table(sboffAll, bits, Superblocks(|text|) + 1, Planes(text, bits), false)
  {
    hide LevelsStored, Table, Encodes, Level, Plane, Partition, RankSamples, OffsetSamples;
    var cur := text;
    var offWords := 0;
    ghost var cwords, nsb1 := (4 * Blocks(|text|) + 31) / 32 + 1, Superblocks(|text|) + 1;
    ghost var planes := Planes(text, bits);
    classes, offsets, offbase, zeros, sbrankAll, sboffAll := [], [], [], [], [], [];
    NoLevels(cwords, nsb1, planes);
    LevelZero(text, bits);
    for lvl := 0 to bits
      invariant |planes| == bits
      invariant cur == Level(text, bits, lvl)
      invariant LevelsStored(classes, offsets, offbase, zeros, cwords, planes, lvl)
      invariant Table(sbrankAll, lvl, nsb1, planes, true) && Table(sboffAll, lvl, nsb1, planes, false)
      invariant offWords == |offsets| && 32 * offWords <= lvl * (|text| + 109)
    {
      LevelStep(text, bits, lvl);
      RowInside(lvl, bits, |text| + 109);
      var plane := Plane(cur, bits - 1 - lvl);
      var e := RrrEncode(plane);
      OffsetWordsBound(e, plane);
      LevelsNext(classes, offsets, offbase, zeros, cwords, planes, lvl, e);
      TableNext(sbrankAll, lvl, nsb1, planes, true, e.sbrank);
      TableNext(sboffAll, lvl, nsb1, planes, false, e.sboff);
      offbase := offbase + [Int32(offWords * 32)];
      classes, offsets := classes + e.cpk, offsets + e.opk;
      sbrankAll, sboffAll := sbrankAll + e.sbrank, sboffAll + e.sboff;
      zeros := zeros + [e.zeros];
      offWords := offWords + |e.opk|;
      assert (lvl + 1) * (|text| + 109) == lvl * (|text| + 109) + (|text| + 109);
      cur := PartitionPasses(cur, bits - 1 - lvl, plane);
    }
  }

  lemma NoLevels(cwords: nat, nsb1: nat, planes: seq<seq<bool>>)
    ensures LevelsStored([], [], [], [], cwords, planes, 0)
    ensures Table([], 0, nsb1, planes, true) && Table([], 0, nsb1, planes, false)
  {
  }

  lemma LevelStep(text: seq<int>, bits: nat, lvl: nat)
    requires lvl < bits
    ensures Level(text, bits, lvl + 1) == Partition(Level(text, bits, lvl), bits - 1 - lvl)
    ensures LevelPlane(text, bits, lvl) == Plane(Level(text, bits, lvl), bits - 1 - lvl)
    ensures |Level(text, bits, lvl)| == |text|
  {
    LevelLength(text, bits, lvl);
  }

  // ---- splitting the samples -----------------------------------------------------------------

  /** The first `rows` levels' samples can be read from the two-level tables. */
  ghost predicate Split(anchors: seq<int>, delta: seq<nat>, na: nat, width: nat, planes: seq<seq<bool>>,
                        rows: nat, ranks: bool) {
    && rows <= |planes| && |anchors| == rows * na && |delta| == rows * width
    && (forall k :: 0 <= k < rows ==>
          RowExact(anchors, delta, na, k, CumOf(planes[k], ranks)))
  }

  lemma RowKept(anchors: seq<int>, delta: seq<nat>, na: nat, k: nat, cum: seq<int>, a: seq<int>, d: seq<nat>)
    requires RowExact(anchors, delta, na, k, cum)
    ensures RowExact(anchors + a, delta + d, na, k, cum)
  {
  }

  lemma RowAdded(anchors: seq<int>, delta: seq<nat>, na: nat, k: nat, cum: seq<int>, a: seq<int>, d: seq<nat>)
    requires |anchors| == k * na && |delta| == k * |cum| && |a| == (|cum| + 31) / 32 && |d| == |cum|
    requires forall i :: 0 <= i < |cum| ==> a[i / 32] + d[i] == cum[i]
    ensures RowExact(anchors + a, delta + d, na, k, cum)
  {
    forall i | 0 <= i < |cum|
      ensures k * na + i / 32 < |anchors + a| && k * |cum| + i < |delta + d|
      ensures (anchors + a)[k * na + i / 32] + (delta + d)[k * |cum| + i] == cum[i]
    {
      assert (anchors + a)[|anchors| + i / 32] == a[i / 32];
      assert (delta + d)[|delta| + i] == d[i];
    }
  }

  lemma SplitNext(anchors: seq<int>, delta: seq<nat>, na: nat, width: nat, planes: seq<seq<bool>>, rows: nat,
                  ranks: bool, a: seq<int>, d: seq<nat>)
    requires Split(anchors, delta, na, width, planes, rows, ranks) && rows < |planes|
    requires |CumOf(planes[rows], ranks)| == width && na == (width + 31) / 32 && |a| == na && |d| == width
    requires forall i :: 0 <= i < width ==> a[i / 32] + d[i] == CumOf(planes[rows], ranks)[i]
    ensures Split(anchors + a, delta + d, na, width, planes, rows + 1, ranks)
  {
    hide CumOf, RowExact;
    assert (rows + 1) * na == rows * na + na && (rows + 1) * width == rows * width + width;
    forall k | 0 <= k < rows + 1
      ensures RowExact(anchors + a, delta + d, na, k, CumOf(planes[k], ranks))
    {
      if k < rows {
        RowKept(anchors, delta, na, k, CumOf(planes[k], ranks), a, d);
      } else {
        assert k == rows;
        RowAdded(anchors, delta, na, k, CumOf(planes[k], ranks), a, d);
      }
    }
  }

  /** Splits the samples of every level. */
  method SplitLevels(all: seq<int>, ghost planes: seq<seq<bool>>, bits: nat, width: nat, ghost ranks: bool)
    returns (anchors: seq<int>, delta: seq<nat>)
    requires Table(all, bits, width, planes, ranks) && bits == |planes|
    requires forall k :: 0 <= k < |planes| ==> Superblocks(|planes[k]|) + 1 == width
    ensures Split(anchors, delta, (width + 31) / 32, width, planes, bits, ranks)
  {
    hide Table, Split, Superblocks, RankSamples, OffsetSamples;
    anchors, delta := [], [];
    NothingSplit((width + 31) / 32, width, planes, ranks);
    for lvl := 0 to bits
      invariant Split(anchors, delta, (width + 31) / 32, width, planes, lvl, ranks)
    {
      TableRow(all, bits, width, planes, ranks, lvl);
      var cum := Row(all, lvl, width);
      var a, d := SplitSamples(planes[lvl], cum);
      SplitNext(anchors, delta, (width + 31) / 32, width, planes, lvl, ranks, a, d);
      anchors, delta := anchors + a, delta + d;
    }
  }

  lemma NothingSplit(na: nat, width: nat, planes: seq<seq<bool>>, ranks: bool)
    ensures Split([], [], na, width, planes, 0, ranks)
  {
  }

  lemma TableRow(all: seq<int>, rows: nat, width: nat, planes: seq<seq<bool>>, ranks: bool, k: nat)
    requires Table(all, rows, width, planes, ranks) && k < rows
    ensures k * width + width <= |all|
    ensures Row(all, k, width) == CumOf(planes[k], ranks)
  {
    assert IsRow(all, k, width, planes[k], ranks);
  }

  // ---- the index ------------------------------------------------------------------------------

  lemma PlanesAlike(text: seq<int>, bits: nat, k: nat)
    requires k < bits
    ensures |Planes(text, bits)[k]| == |text|
  {
    LevelLength(text, bits, k);
  }

  /** The index built from a text holds that text, for every text whose symbols and sizes fit. */
  method BuildWavelet(text: seq<int>, bits: nat) returns (w: RrrWavelet)
    requires forall i :: 0 <= i < |text| ==> 0 <= text[i] < Pow2(bits)
    requires bits * (|text| + 109) < 0x8000_0000 && |text| < 0x7fff_ff00
    ensures w.bits == bits && Holds(w, text)
  {
    hide LevelsStored, Table, Split, LevelHolds, Planes, Pow2;
    var cwords, nsb := (4 * Blocks(|text|) + 31) / 32 + 1, Superblocks(|text|);
    var classes, offsets, offbase, zeros, sbrankAll, sboffAll := EncodeLevels(text, bits);
    ghost var planes := Planes(text, bits);
    forall k | 0 <= k < |planes|
      ensures |planes[k]| == |text|
    {
      PlanesAlike(text, bits, k);
    }
    var rankA, rankD := SplitLevels(sbrankAll, planes, bits, nsb + 1, true);
    var offA, offD := SplitLevels(sboffAll, planes, bits, nsb + 1, false);
    w := RrrWavelet(bits, cwords, nsb, (nsb + 1 + 31) / 32, classes, offsets, rankA, rankD, offA, offD, offbase, zeros);
    forall lvl | 0 <= lvl < bits
      ensures LevelHolds(w, lvl, LevelPlane(text, bits, lvl))
    {
      LevelAssembled(w, planes, lvl);
    }
  }

  lemma LevelAssembled(w: RrrWavelet, planes: seq<seq<bool>>, lvl: nat)
    requires lvl < w.bits == |planes| && w.nsb == Superblocks(|planes[lvl]|)
    requires LevelsStored(w.classes, w.offsets, w.offbase, w.zeros, w.cwords, planes, w.bits)
    requires Split(w.rankA, w.rankD, w.na, w.nsb + 1, planes, w.bits, true)
    requires Split(w.offA, w.offD, w.na, w.nsb + 1, planes, w.bits, false)
    ensures LevelHolds(w, lvl, planes[lvl])
  {
    hide StreamsHold, RowExact, RankSamples, OffsetSamples, Count;
    assert LevelStored(w.classes, w.offsets, w.offbase[lvl], w.zeros[lvl], w.cwords, planes[lvl], lvl);
  }
}
