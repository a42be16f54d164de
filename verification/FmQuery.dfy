/** Count and locate over the compressed index. */
module FmQuery {
  import opened Arithmetic
  import opened Bits
  import opened Permutations
  import opened SuffixArray
  import opened LevelRank
  import opened Wavelet
  import opened WaveletIndex
  import opened FmIndex
  import opened Marks

  datatype FmOracle = FmOracle(C: seq<int>, mwords: seq<Word>, msb: seq<int>, sval: seq<nat>,
                               sigma: nat, saSample: nat, N: nat)

  /** The first symbols of the rows: where each symbol's rows begin. */
  ghost predicate CountTable(C: seq<int>, bwt: seq<int>, sigma: nat) {
    |C| == sigma && forall c :: 0 <= c < sigma ==> C[c] == CountLess(bwt, c)
  }

  ghost predicate Alphabet(text: seq<int>, sigma: nat) {
    forall i :: 0 <= i < |text| ==> 0 <= text[i] < sigma
  }

  /** The index and the oracle belong to the text s with suffix array sa. */
  ghost predicate Indexes(w: RrrWavelet, fm: FmOracle, s: seq<int>, sa: seq<nat>) {
    && Terminated(s) && IsSuffixArray(s, sa)
    && fm.N == |s| && fm.sigma <= Pow2(w.bits) && Alphabet(s, fm.sigma) && Alphabet(Bwt(s, sa), fm.sigma)
    && Holds(w, Bwt(s, sa))
    && CountTable(fm.C, Bwt(s, sa), fm.sigma)
    && fm.saSample > 0
    && Marked(fm.mwords, sa, fm.saSample, |sa|) && fm.sval == Sampled(sa, fm.saSample, |sa|)
    && Directory(fm.mwords, fm.msb)
  }

  // ---- building the oracle --------------------------------------------------------------------

  /** Counts every symbol, then accumulates. */
  method BuildCountTable(bwt: seq<int>, sigma: nat) returns (C: seq<int>)
    requires Alphabet(bwt, sigma) && |bwt| < 0x8000_0000
    ensures CountTable(C, bwt, sigma)
  {
    var cnt := CountSymbols(bwt, sigma);
    var acc := 0;
    C := [];
    CountLessZero(bwt);
    for c := 0 to sigma
      invariant |C| == c && acc == CountLess(bwt, c)
      invariant forall d :: 0 <= d < c ==> C[d] == CountLess(bwt, d)
    {
      C := C + [Int32(acc)];
      CountLessStep(bwt, c);
      acc := acc + cnt[c];
    }
  }

  method CountSymbols(bwt: seq<int>, sigma: nat) returns (cnt: seq<nat>)
    requires Alphabet(bwt, sigma)
    ensures |cnt| == sigma && forall c :: 0 <= c < sigma ==> cnt[c] == Occurrences(bwt, c)
  {
    var counts := new nat[sigma](i => 0);
    for i := 0 to |bwt|
      invariant forall c :: 0 <= c < sigma ==> counts[c] == Occurrences(bwt[..i], c)
    {
      assert bwt[..i + 1][..i] == bwt[..i];
      counts[bwt[i]] := counts[bwt[i]] + 1;
    }
    assert bwt[..|bwt|] == bwt;
    cnt := counts[..];
  }

  lemma {:induction false} CountLessZero(text: seq<int>)
    requires forall i :: 0 <= i < |text| ==> text[i] >= 0
    ensures CountLess(text, 0) == 0
  {
    if text != [] {
      CountLessZero(text[..|text| - 1]);
    }
  }

  lemma {:induction false} CountLessStep(text: seq<int>, c: int)
    ensures CountLess(text, c + 1) == CountLess(text, c) + Occurrences(text, c)
  {
    if text != [] {
      CountLessStep(text[..|text| - 1], c);
    }
  }

  /** The transform has the text's symbols: its largest is the text's largest. */
  lemma BwtAlphabet(s: seq<int>, sa: seq<nat>, sigma: nat)
    requires IsSuffixArray(s, sa)
    ensures Alphabet(Bwt(s, sa), sigma) ==> Alphabet(s, sigma)
  {
    hide SuffixLess;
    if Alphabet(Bwt(s, sa), sigma) {
      forall t | 0 <= t < |s|
        ensures 0 <= s[t] < sigma
      {
        var r := Surjective(sa, t);
        BwtFollow(s, sa, r);
      }
    }
  }

  /** Everything but the wavelet index itself. */
  method BuildOracle(bwt: seq<int>, sa: seq<nat>, sigma: nat, saSample: nat) returns (fm: FmOracle)
    requires Alphabet(bwt, sigma) && |bwt| == |sa| && |bwt| < 0x7fff_ff00 && saSample > 0
    ensures fm.N == |sa| && fm.sigma == sigma && fm.saSample == saSample && CountTable(fm.C, bwt, sigma)
    ensures Marked(fm.mwords, sa, saSample, |sa|) && fm.sval == Sampled(sa, saSample, |sa|)
    ensures Directory(fm.mwords, fm.msb)
  {
    hide CountTable, Directory, Sampled, Alphabet;
    var C := BuildCountTable(bwt, sigma);
    var mwords, sval := MarkSamples(sa, saSample);
    var msb := BuildDirectory(mwords);
    fm := FmOracle(C, mwords, msb, sval, sigma, saSample, |sa|);
  }

  // ---- count ----------------------------------------------------------------------------------

  /** Backward search, for any pattern: the rows found are exactly those that read the pattern. */
  method Backward(w: RrrWavelet, fm: FmOracle, ghost s: seq<int>, ghost sa: seq<nat>, pat: seq<int>)
    returns (lo: int, hi: int)
    requires Indexes(w, fm, s, sa)
    ensures RowsOf(s, sa, pat, lo, hi)
  {
    hide Holds, Terminated, SuffixLess, CountLess, Occurrences, RowsOf, Marked, Sampled, Directory, Bwt, Pow2,
      IsPermutation;
    lo, hi := 0, fm.N;
    RowsOfAll(s, sa);
    assert pat[|pat|..] == [];
    for k := 0 to |pat|
      invariant RowsOf(s, sa, pat[|pat| - k..], lo, hi)
    {
      var c := pat[|pat| - 1 - k];
      RowsRange(s, sa, pat[|pat| - k..], lo, hi);
      assert pat[|pat| - (k + 1)..] == [c] + pat[|pat| - k..];
      if 0 <= c < fm.sigma {
        if lo < hi {
          RowsOfStep(s, sa, pat[|pat| - k..], lo, hi, c);
          var rlo := Rank(w, Bwt(s, sa), c, lo);
          var rhi := Rank(w, Bwt(s, sa), c, hi);
          lo, hi := fm.C[c] + rlo, fm.C[c] + rhi;
        } else {
          RowsOfNone(s, sa, pat[|pat| - k..], lo, hi, c);
        }
      } else {
        RowsOfNone(s, sa, pat[|pat| - k..], lo, hi, c);
        lo, hi := 0, 0;
      }
    }
    assert pat[0..] == pat;
  }

  lemma RowsRange(s: seq<int>, sa: seq<nat>, pat: seq<int>, lo: int, hi: int)
    requires IsSuffixArray(s, sa) && RowsOf(s, sa, pat, lo, hi)
    ensures 0 <= lo <= hi <= |s|
  {
  }

  // ---- locate ---------------------------------------------------------------------------------

  lemma MarkMeans(words: seq<Word>, sa: seq<nat>, step: nat, p: nat)
    requires step > 0 && p < |sa| && Marked(words, sa, step, |sa|)
    ensures p < 32 * |words|
    ensures StreamBit(words, p) <==> sa[p] % step == 0
  {
  }

  lemma PrevModulo(x: nat, step: nat)
    requires step > 0 && x % step != 0
    ensures x > 0 && (x - 1) % step == x % step - 1
  {
    DivModUnique(x - 1, step, x / step, x % step - 1);
  }

  /** Walks back to a sampled row; the walk is as long as the distance to the last multiple of the step,
      so it ends in fewer than saSample steps. */
  method LocateOne(w: RrrWavelet, fm: FmOracle, ghost s: seq<int>, ghost sa: seq<nat>, row: nat)
    returns (pos: int, steps: nat)
    requires Indexes(w, fm, s, sa) && row < |sa|
    ensures pos == sa[row]
    ensures steps == sa[row] % fm.saSample < fm.saSample
  {
    hide Holds, Terminated, SuffixLess, CountLess, Occurrences, Marked, Sampled, Directory, Bwt, Pow2, OnesBelow;
    var p: nat := row;
    steps := 0;
    MarkMeans(fm.mwords, sa, fm.saSample, p);
    while !StreamBit(fm.mwords, p)
      invariant p < |sa| && p < 32 * |fm.mwords|
      invariant StreamBit(fm.mwords, p) <==> sa[p] % fm.saSample == 0
      invariant sa[p] + steps == sa[row]
      invariant sa[p] % fm.saSample + steps == sa[row] % fm.saSample
      decreases sa[p]
    {
      StepBack(s, sa, p);
      var c := Access(w, Bwt(s, sa), p);
      var r := Rank(w, Bwt(s, sa), c, p);
      PrevModulo(sa[p], fm.saSample);
      p := fm.C[c] + r;
      steps := steps + 1;
      MarkMeans(fm.mwords, sa, fm.saSample, p);
    }
    SampleRead(fm.mwords, fm.sval, sa, fm.saSample, p);
    var idx := PackedRank1(fm.mwords, fm.msb, p);
    DivModUnique(sa[row], fm.N, 0, sa[row]);
    pos := (fm.sval[idx] + steps) % fm.N;
  }
}
