/** The two-level split of the cumulative samples: an anchor for every 32 of them and a
    16-bit delta each. */
module Samples {
  import opened Rrr

  /** Row `row` of the anchor and delta tables reproduces the samples. */
  ghost predicate RowExact(anchors: seq<int>, delta: seq<nat>, na: nat, row: nat, cum: seq<int>) {
    forall i :: 0 <= i < |cum| ==>
      && row * na + i / 32 < |anchors| && row * |cum| + i < |delta|
      && anchors[row * na + i / 32] + delta[row * |cum| + i] == cum[i]
  }

  /** Truncation to an unsigned 16-bit integer. */
  function Uint16(x: int): (y: nat)
    ensures y < 0x1_0000 && (y == x <==> 0 <= x < 0x1_0000)
  {
    x % 0x1_0000
  }

  /** Every 32nd sample. */
  method TakeAnchors(cum: seq<int>) returns (anchors: seq<int>)
    ensures |anchors| == (|cum| + 31) / 32
    ensures forall a :: 0 <= a < |anchors| ==> anchors[a] == cum[a * 32]
  {
    var na := (|cum| + 31) / 32;
    anchors := [];
    for a := 0 to na
      invariant |anchors| == a
      invariant forall j :: 0 <= j < a ==> anchors[j] == cum[j * 32]
    {
      anchors := anchors + [cum[a * 32]];
    }
  }

  /** The sample at which i's anchor is taken. */
  function AnchorOf(i: nat): (j: nat)
    ensures j <= i < j + 32
  {
    i / 32 * 32
  }

  lemma AnchorRead(cum: seq<int>, anchors: seq<int>, i: nat)
    requires i < |cum| && |anchors| == (|cum| + 31) / 32
    requires forall a :: 0 <= a < |anchors| ==> anchors[a] == cum[a * 32]
    ensures anchors[i / 32] == cum[AnchorOf(i)]
  {
  }

  /** Splits the samples; a sample survives exactly when its distance from its anchor fits 16 bits. */
  method TwoLevel(cum: seq<int>) returns (anchors: seq<int>, delta: seq<nat>)
    ensures |anchors| == (|cum| + 31) / 32 && |delta| == |cum|
    ensures forall i :: 0 <= i < |delta| ==> delta[i] < 0x1_0000
    ensures forall i :: 0 <= i < |cum| ==>
      (anchors[i / 32] + delta[i] == cum[i] <==> 0 <= cum[i] - cum[AnchorOf(i)] < 0x1_0000)
  {
    hide Uint16, AnchorOf;
    anchors := TakeAnchors(cum);
    delta := [];
    for i := 0 to |cum|
      invariant |delta| == i
      invariant forall j :: 0 <= j < i ==> delta[j] == Uint16(cum[j] - cum[AnchorOf(j)])
    {
      var d := cum[i] - anchors[i / 32];
      AnchorRead(cum, anchors, i);
      delta := delta + [Uint16(d)];
    }
    forall i | 0 <= i < |cum|
      ensures anchors[i / 32] == cum[AnchorOf(i)]
    {
      AnchorRead(cum, anchors, i);
    }
  }

  // ---- why the deltas of a plane fit ----------------------------------------------------------

  function RankSamples(plane: seq<bool>): (cum: seq<int>)
    ensures |cum| == Superblocks(|plane|) + 1
  {
    seq(Superblocks(|plane|) + 1, i requires 0 <= i => OnesBefore(plane, SampleBlock(|plane|, i)))
  }

  function OffsetSamples(plane: seq<bool>): (cum: seq<int>)
    ensures |cum| == Superblocks(|plane|) + 1
  {
    seq(Superblocks(|plane|) + 1, i requires 0 <= i => OffsetAt(plane, SampleBlock(|plane|, i)))
  }

  /** At most 31 superblocks of 64 blocks of 15 bits lie between an anchor and a sample. */
  lemma DeltaBound(plane: seq<bool>, i: nat)
    requires i < |RankSamples(plane)|
    ensures 0 <= RankSamples(plane)[i] - RankSamples(plane)[AnchorOf(i)] <= 29760
    ensures 0 <= OffsetSamples(plane)[i] - OffsetSamples(plane)[AnchorOf(i)] <= 29760
  {
    var n := |plane|;
    SamplesMonotone(plane, SampleBlock(n, AnchorOf(i)), SampleBlock(n, i));
  }

  /** Splitting a plane's samples loses nothing. */
  method SplitSamples(ghost plane: seq<bool>, cum: seq<int>) returns (anchors: seq<int>, delta: seq<nat>)
    requires cum == RankSamples(plane) || cum == OffsetSamples(plane)
    ensures |anchors| == (|cum| + 31) / 32 && |delta| == |cum|
    ensures forall i :: 0 <= i < |cum| ==> anchors[i / 32] + delta[i] == cum[i]
  {
    anchors, delta := TwoLevel(cum);
    forall i | 0 <= i < |cum|
      ensures anchors[i / 32] + delta[i] == cum[i]
    {
      DeltaBound(plane, i);
    }
  }
}
