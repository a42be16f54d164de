/** Building the compressed wavelet index of a text, and the two queries on it. */
module WaveletIndex {
  import opened Bits
  import opened Rrr
  import opened LevelRank
  import opened Wavelet

  /** The index holds the text: every level answers rank queries on the text's plane at that level. */
  ghost predicate Holds(w: RrrWavelet, text: seq<int>) {
    && (forall i :: 0 <= i < |text| ==> 0 <= text[i] < Pow2(w.bits))
    && (forall lvl :: 0 <= lvl < w.bits ==> LevelHolds(w, lvl, LevelPlane(text, w.bits, lvl)))
  }

  lemma LevelAt(w: RrrWavelet, text: seq<int>, lvl: nat)
    requires Holds(w, text) && lvl < w.bits
    ensures LevelHolds(w, lvl, LevelPlane(text, w.bits, lvl))
    ensures lvl < |w.zeros| && w.zeros[lvl] == |text| - Count(LevelPlane(text, w.bits, lvl))
    ensures |LevelPlane(text, w.bits, lvl)| == |text| == |Level(text, w.bits, lvl)|
  {
    hide Level, Plane, Count;
    LevelLength(text, w.bits, lvl);
  }

  // ---- access -------------------------------------------------------------------------------

  lemma AccessStep(text: seq<int>, bits: nat, lvl: nat, i: nat)
    requires lvl < bits && i < |Level(text, bits, lvl)| == |text|
    ensures var cur := Level(text, bits, lvl);
            var plane := LevelPlane(text, bits, lvl);
            var v := BitOf(cur[i], bits - 1 - lvl);
            && Rank1(plane, i + 1) - Rank1(plane, i) == (if v then 1 else 0)
            && Target(cur, bits - 1 - lvl, v, i) < |Level(text, bits, lvl + 1)| == |text|
            && Level(text, bits, lvl + 1)[Target(cur, bits - 1 - lvl, v, i)] == cur[i]
  {
    hide Select, Count, Target, BitOf;
    LevelLength(text, bits, lvl + 1);
    var cur, shift := Level(text, bits, lvl), bits - 1 - lvl;
    var plane, v := Plane(cur, shift), BitOf(cur[i], shift);
    RankNext(plane, i);
    PartitionRange(cur, shift, v, i, i + 1);
    assert cur[i..i + 1] == [cur[i]];
    SelectOne(cur[i], shift, v);
    var p, q := Target(cur, shift, v, i), Target(cur, shift, v, i + 1);
    assert Partition(cur, shift)[p..q][0] == cur[i];
  }

  lemma RankNext(plane: seq<bool>, i: nat)
    requires i < |plane|
    ensures Rank1(plane, i + 1) == Rank1(plane, i) + (if plane[i] then 1 else 0)
  {
    assert plane[..i + 1][..i] == plane[..i];
  }

  /** The symbol at position `at`. */
  method Access(w: RrrWavelet, ghost text: seq<int>, at: nat) returns (val: int)
    requires Holds(w, text) && at < |text|
    ensures val == text[at]
  {
    hide Holds, LevelHolds, Level, Plane, Rank1, Count, BitOf;
    var i := at;
    val := 0;
    TopBits(w, text, at);
    LevelZero(text, w.bits);
    for lvl := 0 to w.bits
      invariant 0 <= i < |text| == |Level(text, w.bits, lvl)|
      invariant Level(text, w.bits, lvl)[i] == text[at]
      invariant val == ShiftRight(text[at], w.bits - lvl)
    {
      LevelAt(w, text, lvl);
      AccessStep(text, w.bits, lvl, i);
      NextBit(text[at], w.bits - 1 - lvl);
      var r0 := Rank1Level(w, lvl, LevelPlane(text, w.bits, lvl), i);
      var r1 := Rank1Level(w, lvl, LevelPlane(text, w.bits, lvl), i + 1);
      if r1 - r0 == 1 {
        val := val * 2 + 1;
        i := w.zeros[lvl] + r0;
      } else {
        val := val * 2;
        i := i - r0;
      }
    }
  }

  lemma TopBits(w: RrrWavelet, text: seq<int>, at: nat)
    requires Holds(w, text) && at < |text|
    ensures ShiftRight(text[at], w.bits) == 0
  {
    ShiftRightBound(text[at], w.bits, w.bits);
    assert Pow2(0) == 1;
  }

  lemma LevelZero(text: seq<int>, bits: nat)
    ensures Level(text, bits, 0) == text
  {
  }

  lemma NextBit(x: int, shift: nat)
    ensures ShiftRight(x, shift) == 2 * ShiftRight(x, shift + 1) + (if BitOf(x, shift) then 1 else 0)
  {
  }

  // ---- rank ---------------------------------------------------------------------------------

  /** The range [p, q) of a level holds exactly the prefix's symbols that share c's leading bits. */
  ghost predicate Tracks(text: seq<int>, bits: nat, lvl: nat, c: int, n: nat, p: int, q: int) {
    && lvl <= bits && n <= |text|
    && 0 <= p <= q <= |Level(text, bits, lvl)|
    && Level(text, bits, lvl)[p..q] == Sharing(text[..n], bits - lvl, ShiftRight(c, bits - lvl))
  }

  lemma TracksStart(text: seq<int>, bits: nat, c: nat, n: nat)
    requires n <= |text| && c < Pow2(bits)
    requires forall i :: 0 <= i < |text| ==> 0 <= text[i] < Pow2(bits)
    ensures Tracks(text, bits, 0, c, n, 0, n)
  {
    SharingAll(text[..n], bits);
    ShiftRightBound(c, bits, bits);
    assert Pow2(0) == 1;
  }

  lemma TracksNext(text: seq<int>, bits: nat, lvl: nat, c: int, n: nat, p: nat, q: nat)
    requires lvl < bits && Tracks(text, bits, lvl, c, n, p, q)
    ensures var shift := bits - 1 - lvl;
            var cur, v := Level(text, bits, lvl), BitOf(c, shift);
            Tracks(text, bits, lvl + 1, c, n, Target(cur, shift, v, p), Target(cur, shift, v, q))
  {
    hide Select, Sharing, Target, BitOf, ShiftRight;
    var shift := bits - 1 - lvl;
    var cur, v := Level(text, bits, lvl), BitOf(c, shift);
    PartitionRange(cur, shift, v, p, q);
    SharingNext(text[..n], shift, ShiftRight(c, shift + 1), v);
    NextBit(c, shift);
  }

  lemma TracksEnd(text: seq<int>, bits: nat, c: int, n: nat, p: int, q: int)
    requires Tracks(text, bits, bits, c, n, p, q)
    ensures q - p == Occurrences(text[..n], c)
  {
    SharingNone(text[..n], c);
  }

  /** How often c occurs before position n. */
  method Rank(w: RrrWavelet, ghost text: seq<int>, c: nat, n: nat) returns (occ: int)
    requires Holds(w, text) && c < Pow2(w.bits) && n <= |text|
    ensures occ == Occurrences(text[..n], c)
  {
    hide LevelHolds, Tracks, Level, Plane, Rank1, Count, BitOf, Occurrences, Pow2;
    var p, q := 0, n;
    TracksStart(text, w.bits, c, n);
    for lvl := 0 to w.bits
      invariant 0 <= p <= q <= |text|
      invariant Tracks(text, w.bits, lvl, c, n, p, q)
    {
      LevelAt(w, text, lvl);
      TracksNext(text, w.bits, lvl, c, n, p, q);
      TracksRange(text, w.bits, lvl + 1, c, n);
      var bitc := BitOf(c, w.bits - 1 - lvl);
      var rp := Rank1Level(w, lvl, LevelPlane(text, w.bits, lvl), p);
      var rq := Rank1Level(w, lvl, LevelPlane(text, w.bits, lvl), q);
      if bitc {
        p, q := w.zeros[lvl] + rp, w.zeros[lvl] + rq;
      } else {
        p, q := p - rp, q - rq;
      }
    }
    TracksEnd(text, w.bits, c, n, p, q);
    occ := q - p;
  }

  lemma TracksRange(text: seq<int>, bits: nat, lvl: nat, c: int, n: nat)
    requires lvl <= bits
    ensures forall p, q :: Tracks(text, bits, lvl, c, n, p, q) ==> 0 <= p <= q <= |text|
  {
    LevelLength(text, bits, lvl);
  }
}
