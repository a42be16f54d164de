/** The plane that marks the sampled rows, packed 32 to a word with a directory entry every 8 words. */
module Marks {
  import opened Bits
  import opened Enumerative

  /** Ones in the first k words. */
  function OnesInWords(words: seq<Word>, k: nat): (n: nat)
    requires k <= |words|
    ensures n <= 32 * k
  {
    if k == 0 then 0 else OnesInWords(words, k - 1) + Count(words[k - 1])
  }

  /** Ones before bit position p of the stream. */
  function OnesBelow(words: seq<Word>, p: nat): nat
    requires p <= 32 * |words|
  {
    if p == 0 then 0 else OnesBelow(words, p - 1) + (if StreamBit(words, p - 1) then 1 else 0)
  }

  lemma {:induction false} OnesBelowInWord(words: seq<Word>, k: nat, b: nat)
    requires k < |words| && b <= 32
    ensures OnesBelow(words, 32 * k + b) == OnesInWords(words, k) + Count(words[k][..b])
    decreases k, b
  {
    if b == 0 {
      assert words[k][..0] == [];
      if k > 0 {
        OnesBelowInWord(words, k - 1, 32);
        assert words[k - 1][..32] == words[k - 1];
      }
    } else {
      OnesBelowInWord(words, k, b - 1);
      assert words[k][..b][..b - 1] == words[k][..b - 1];
      assert StreamBit(words, 32 * k + (b - 1)) == words[k][b - 1];
    }
  }

  /** The directory: ones before every eighth word, and after the last one. */
  ghost predicate Directory(words: seq<Word>, sb: seq<int>) {
    && |sb| == (|words| + 7) / 8 + 1
    && forall j :: 0 <= j < |sb| ==> sb[j] == OnesInWords(words, Min(8 * j, |words|))
  }

  method BuildDirectory(words: seq<Word>) returns (sb: seq<int>)
    requires 32 * |words| < 0x8000_0000
    ensures Directory(words, sb)
  {
    hide Count;
    var cum := [0];
    for k := 0 to |words|
      invariant |cum| == k + 1
      invariant forall j :: 0 <= j <= k ==> cum[j] == OnesInWords(words, j)
    {
      cum := cum + [cum[k] + Count(words[k])];
    }
    sb := SampleDirectory(words, cum);
  }

  method SampleDirectory(words: seq<Word>, cum: seq<int>) returns (sb: seq<int>)
    requires 32 * |words| < 0x8000_0000
    requires |cum| == |words| + 1 && forall j :: 0 <= j < |cum| ==> cum[j] == OnesInWords(words, j)
    ensures Directory(words, sb)
  {
    hide OnesInWords;
    var nb := (|words| + 7) / 8;
    sb := [];
    for j := 0 to nb + 1
      invariant |sb| == j
      invariant forall i :: 0 <= i < j ==> sb[i] == OnesInWords(words, Min(8 * i, |words|))
    {
      sb := sb + [Int32(cum[Min(j * 8, |words|)])];
    }
  }

  /** Ones before bit pos: a directory entry, whole words, and the low bits of one word. */
  method PackedRank1(words: seq<Word>, sb: seq<int>, pos: nat) returns (r: int)
    requires Directory(words, sb) && pos < 32 * |words|
    ensures r == OnesBelow(words, pos)
  {
    hide Count, OnesBelow;
    var word, bit := pos / 32, pos % 32;
    var blk := word / 8;
    r := sb[blk];
    for k := blk * 8 to word
      invariant r == OnesInWords(words, k)
    {
      r := r + Count(words[k]);
    }
    OnesBelowInWord(words, word, bit);
    if bit > 0 {
      MaskedCount(words[word], bit);
      r := r + Count(And(words[word], LowMask(32, bit)));
    } else {
      CountNone(words[word][..0]);
    }
  }

  // ---- sampling the suffix array -------------------------------------------------------------

  /** The sampled entries among the first p rows, in row order. */
  function Sampled(sa: seq<nat>, step: nat, p: nat): (r: seq<nat>)
    requires step > 0 && p <= |sa|
  {
    if p == 0 then []
    else Sampled(sa, step, p - 1) + (if sa[p - 1] % step == 0 then [sa[p - 1]] else [])
  }

  /** The marks of the first m rows, and no others. */
  ghost predicate Marked(words: seq<Word>, sa: seq<nat>, step: nat, m: nat)
    requires step > 0 && m <= |sa|
  {
    && |words| == (|sa| + 31) / 32
    && forall p :: 0 <= p < 32 * |words| ==> (StreamBit(words, p) <==> p < m && sa[p] % step == 0)
  }

  /** Marks every row whose suffix position is a multiple of the step, and collects those positions. */
  method MarkSamples(sa: seq<nat>, step: nat) returns (mwords: seq<Word>, sval: seq<nat>)
    requires step > 0
    ensures Marked(mwords, sa, step, |sa|) && sval == Sampled(sa, step, |sa|)
  {
    var words := new Word[(|sa| + 31) / 32](i => Zeros(32));
    sval := [];
    for i := 0 to |sa|
      invariant Marked(words[..], sa, step, i) && sval == Sampled(sa, step, i)
    {
      ghost var before := words[..];
      if sa[i] % step == 0 {
        words[i / 32] := SetBit(words[i / 32], i % 32);
        sval := sval + [sa[i]];
      }
      MarkedNext(before, words[..], sa, step, i);
    }
    mwords := words[..];
  }

  lemma MarkedNext(before: seq<Word>, after: seq<Word>, sa: seq<nat>, step: nat, i: nat)
    requires step > 0 && i < |sa| && Marked(before, sa, step, i)
    requires after == if sa[i] % step == 0 then before[i / 32 := before[i / 32][i % 32 := true]] else before
    ensures Marked(after, sa, step, i + 1)
  {
    forall p | 0 <= p < 32 * |before|
      ensures StreamBit(after, p) <==> p < i + 1 && sa[p] % step == 0
    {
      assert StreamBit(before, p) <==> p < i && sa[p] % step == 0;
      assert p / 32 == i / 32 && p % 32 == i % 32 ==> p == i;
    }
  }

  /** A marked row's entry stands at the rank of its mark. */
  lemma {:induction false} SampleAtRank(words: seq<Word>, sa: seq<nat>, step: nat, p: nat)
    requires step > 0 && p <= |sa| && Marked(words, sa, step, |sa|)
    ensures |Sampled(sa, step, p)| == OnesBelow(words, p)
  {
    if p > 0 {
      SampleAtRank(words, sa, step, p - 1);
    }
  }

  lemma {:induction false} SampledGrows(sa: seq<nat>, step: nat, p: nat, q: nat)
    requires step > 0 && p <= q <= |sa|
    ensures Sampled(sa, step, p) <= Sampled(sa, step, q)
    decreases q - p
  {
    if p < q {
      SampledGrows(sa, step, p, q - 1);
    }
  }

  lemma SampleRead(words: seq<Word>, sval: seq<nat>, sa: seq<nat>, step: nat, p: nat)
    requires step > 0 && p < |sa| && Marked(words, sa, step, |sa|) && sval == Sampled(sa, step, |sa|)
    requires sa[p] % step == 0
    ensures OnesBelow(words, p) < |sval| && sval[OnesBelow(words, p)] == sa[p]
  {
    SampleAtRank(words, sa, step, p);
    SampledGrows(sa, step, p + 1, |sa|);
    assert Sampled(sa, step, p + 1) == Sampled(sa, step, p) + [sa[p]];
  }
}
