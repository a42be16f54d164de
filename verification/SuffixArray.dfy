/** The suffix array by prefix doubling. */
module SuffixArray {
  import opened Bits
  import opened Permutations

  // ---- the order of suffixes ----------------------------------------------------------------

  /** Compares the first k symbols of the suffixes at i and j; an ended suffix is the smaller. */
  function Compare(s: seq<int>, i: nat, j: nat, k: nat): (c: int)
    requires i <= |s| && j <= |s|
    ensures -1 <= c <= 1
    decreases k
  {
    if k == 0 || (i == |s| && j == |s|) then 0
    else if i == |s| then -1
    else if j == |s| then 1
    else if s[i] < s[j] then -1
    else if s[i] > s[j] then 1
    else Compare(s, i + 1, j + 1, k - 1)
  }

  ghost predicate SuffixLess(s: seq<int>, i: nat, j: nat)
    requires i <= |s| && j <= |s|
  {
    Compare(s, i, j, |s|) < 0
  }

  /** A permutation of the suffixes in strictly increasing order. */
  ghost predicate IsSuffixArray(s: seq<int>, sa: seq<nat>) {
    && |sa| == |s| && IsPermutation(sa)
    && (forall p, q :: 0 <= p < q < |sa| ==> SuffixLess(s, sa[p], sa[q]))
  }

  lemma {:induction false} CompareSwap(s: seq<int>, i: nat, j: nat, k: nat)
    requires i <= |s| && j <= |s|
    ensures Compare(s, i, j, k) == -Compare(s, j, i, k)
    decreases k
  {
    if k > 0 && i < |s| && j < |s| {
      CompareSwap(s, i + 1, j + 1, k - 1);
    }
  }

  lemma {:induction false} CompareSelf(s: seq<int>, i: nat, k: nat)
    requires i <= |s|
    ensures Compare(s, i, i, k) == 0
    decreases k
  {
    if k > 0 && i < |s| {
      CompareSelf(s, i + 1, k - 1);
    }
  }

  /** Comparing k + m symbols is comparing k and then, on a tie, m more. */
  lemma {:induction false} CompareExtend(s: seq<int>, i: nat, j: nat, k: nat, m: nat)
    requires i <= |s| && j <= |s|
    ensures Compare(s, i, j, k + m) ==
            if Compare(s, i, j, k) != 0 then Compare(s, i, j, k)
            else Compare(s, Min(i + k, |s|), Min(j + k, |s|), m)
    decreases k
  {
    if k > 0 && i < |s| && j < |s| && s[i] == s[j] {
      CompareExtend(s, i + 1, j + 1, k - 1, m);
    }
  }

  /** Different suffixes differ as soon as the comparison can run past the end of the shorter one. */
  lemma {:induction false} CompareDistinct(s: seq<int>, i: nat, j: nat, k: nat)
    requires i <= |s| && j <= |s| && i != j
    requires k > |s| - i || k > |s| - j
    ensures Compare(s, i, j, k) != 0
    decreases k
  {
    if i < |s| && j < |s| {
      CompareDistinct(s, i + 1, j + 1, k - 1);
    }
  }

  /** Comparing at least as many symbols as the text has decides the order of suffixes. */
  lemma CompareFull(s: seq<int>, i: nat, j: nat, k: nat)
    requires i < |s| && j < |s| && Compare(s, i, j, k) < 0
    ensures SuffixLess(s, i, j)
  {
    CompareSelf(s, i, k);
    if k <= |s| {
      CompareExtend(s, i, j, k, |s| - k);
    } else {
      CompareExtend(s, i, j, |s|, k - |s|);
      if i > 0 || j > 0 {
        CompareDistinct(s, i, j, |s|);
      }
    }
  }

  // ---- one round of doubling ------------------------------------------------------------------

  /** The ranks order the suffixes by their first k symbols. */
  ghost predicate RanksBy(s: seq<int>, rank: seq<int>, k: nat) {
    && |rank| == |s|
    && (forall i :: 0 <= i < |s| ==> rank[i] >= 0)
    && (forall i, j :: 0 <= i < |s| && 0 <= j < |s| ==> (rank[i] < rank[j] <==> Compare(s, i, j, k) < 0))
  }

  function Key2(rank: seq<int>, k: nat, i: nat): int {
    if i + k < |rank| then rank[i + k] else -1
  }

  /** The comparator of a round: by rank, then by the rank k symbols on. */
  predicate Less(rank: seq<int>, k: nat, a: nat, b: nat)
    requires a < |rank| && b < |rank|
  {
    if rank[a] != rank[b] then rank[a] < rank[b] else Key2(rank, k, a) < Key2(rank, k, b)
  }

  /** The comparator compares twice as many symbols. */
  lemma LessDoubles(s: seq<int>, rank: seq<int>, k: nat, a: nat, b: nat)
    requires RanksBy(s, rank, k) && k > 0 && a < |s| && b < |s|
    ensures Less(rank, k, a, b) <==> Compare(s, a, b, 2 * k) < 0
  {
    hide Compare;
    CompareSwap(s, a, b, k);
    CompareExtend(s, a, b, k, k);
    EndCompare(s, Min(a + k, |s|), Min(b + k, |s|), k);
  }

  lemma EndCompare(s: seq<int>, i: nat, j: nat, k: nat)
    requires i <= |s| && j <= |s| && k > 0
    ensures i == |s| ==> (Compare(s, i, j, k) < 0 <==> j < |s|)
    ensures j == |s| ==> Compare(s, i, j, k) >= 0
  {
  }

  ghost predicate SortedBy(rank: seq<int>, k: nat, sa: seq<nat>)
    requires forall i :: 0 <= i < |sa| ==> sa[i] < |rank|
  {
    forall p, q :: 0 <= p < q < |sa| ==> !Less(rank, k, sa[q], sa[p])
  }

  /** Stands for the library sort: any method with this contract would do. */
  method Sort(sa: array<nat>, rank: seq<int>, k: nat)
    requires IsPermutation(sa[..]) && sa.Length == |rank|
    modifies sa
    ensures IsPermutation(sa[..]) && SortedBy(rank, k, sa[..])
  {
    for i := 0 to sa.Length
      invariant IsPermutation(sa[..])
      invariant forall p, q :: 0 <= p < q < i ==> !Less(rank, k, sa[q], sa[p])
    {
      var j := i;
      while j > 0 && Less(rank, k, sa[j], sa[j - 1])
        invariant 0 <= j <= i
        invariant IsPermutation(sa[..])
        invariant forall p, q :: 0 <= p < q <= i && q != j ==> !Less(rank, k, sa[q], sa[p])
      {
        sa[j], sa[j - 1] := sa[j - 1], sa[j];
        j := j - 1;
      }
    }
  }

  /** New ranks: position in the sorted order, equal for equal keys. */
  ghost predicate Reranked(rank: seq<int>, k: nat, sa: seq<nat>, tmp: seq<int>, m: nat)
    requires m <= |sa| == |rank| == |tmp|
    requires forall i :: 0 <= i < |sa| ==> sa[i] < |rank|
  {
    && (forall p :: 0 <= p < m ==> tmp[sa[p]] >= 0)
    && (forall p, q :: 0 <= p < q < m ==> 0 <= tmp[sa[q]] - tmp[sa[p]] <= q - p)
    && (forall p, q :: 0 <= p < q < m ==> (tmp[sa[p]] < tmp[sa[q]] <==> Less(rank, k, sa[p], sa[q])))
    && (m > 0 ==> tmp[sa[0]] == 0)
  }

  /** Assigns the new ranks in sorted order. */
  method Rerank(sa: array<nat>, rank: seq<int>, k: nat, tmp: array<int>)
    requires sa as object != tmp
    requires IsPermutation(sa[..]) && sa.Length == |rank| == tmp.Length > 0
    requires SortedBy(rank, k, sa[..])
    modifies tmp
    ensures Reranked(rank, k, sa[..], tmp[..], sa.Length)
  {
    tmp[sa[0]] := 0;
    for i := 1 to sa.Length
      invariant Reranked(rank, k, sa[..], tmp[..], i)
    {
      ghost var before := tmp[..];
      tmp[sa[i]] := tmp[sa[i - 1]] + (if Less(rank, k, sa[i - 1], sa[i]) then 1 else 0);
      RerankNext(rank, k, sa[..], before, tmp[..], i);
    }
  }

  lemma RerankNext(rank: seq<int>, k: nat, sa: seq<nat>, before: seq<int>, after: seq<int>, i: nat)
    requires IsPermutation(sa) && 0 < i < |sa| == |rank| == |before| && SortedBy(rank, k, sa)
    requires Reranked(rank, k, sa, before, i)
    requires after == before[sa[i] := before[sa[i - 1]] + (if Less(rank, k, sa[i - 1], sa[i]) then 1 else 0)]
    ensures Reranked(rank, k, sa, after, i + 1)
  {
    hide Less;
    forall p | 0 <= p < i
      ensures after[sa[p]] == before[sa[p]]
      ensures 0 <= after[sa[i]] - after[sa[p]] <= i - p
      ensures after[sa[p]] < after[sa[i]] <==> Less(rank, k, sa[p], sa[i])
    {
      RerankPair(rank, k, sa, before, i, p);
    }
  }

  lemma RerankPair(rank: seq<int>, k: nat, sa: seq<nat>, before: seq<int>, i: nat, p: nat)
    requires IsPermutation(sa) && p < i < |sa| == |rank| == |before| && SortedBy(rank, k, sa)
    requires Reranked(rank, k, sa, before, i)
    ensures var r := before[sa[i - 1]] + (if Less(rank, k, sa[i - 1], sa[i]) then 1 else 0);
            0 <= r - before[sa[p]] <= i - p && (before[sa[p]] < r <==> Less(rank, k, sa[p], sa[i]))
  {
    hide Less;
    assert !Less(rank, k, sa[i], sa[p]) && !Less(rank, k, sa[i], sa[i - 1]);
    if p < i - 1 {
      assert !Less(rank, k, sa[i - 1], sa[p]);
    }
    LessChain(rank, k, sa[p], sa[i - 1], sa[i]);
  }

  /** The comparator is a total preorder. */
  lemma LessChain(rank: seq<int>, k: nat, a: nat, b: nat, c: nat)
    requires a < |rank| && b < |rank| && c < |rank|
    requires a == b || !Less(rank, k, b, a)
    requires !Less(rank, k, c, b)
    ensures Less(rank, k, a, c) <==> Less(rank, k, a, b) || Less(rank, k, b, c)
    ensures !Less(rank, k, a, a)
  {
  }

  /** Reranking orders the suffixes by twice as many symbols. */
  lemma RerankDoubles(s: seq<int>, rank: seq<int>, k: nat, sa: seq<nat>, tmp: seq<int>)
    requires RanksBy(s, rank, k) && k > 0 && |sa| == |s| == |tmp| && IsPermutation(sa)
    requires Reranked(rank, k, sa, tmp, |sa|)
    requires SortedBy(rank, k, sa)
    ensures RanksBy(s, tmp, 2 * k)
  {
    forall i, j | 0 <= i < |s| && 0 <= j < |s|
      ensures tmp[i] >= 0
      ensures tmp[i] < tmp[j] <==> Compare(s, i, j, 2 * k) < 0
    {
      var p := Surjective(sa, i);
      var q := Surjective(sa, j);
      LessDoubles(s, rank, k, i, j);
      RerankedPair(rank, k, sa, tmp, p, q);
    }
  }

  lemma RerankedPair(rank: seq<int>, k: nat, sa: seq<nat>, tmp: seq<int>, p: nat, q: nat)
    requires IsPermutation(sa) && |sa| == |rank| == |tmp| && p < |sa| && q < |sa|
    requires Reranked(rank, k, sa, tmp, |sa|) && SortedBy(rank, k, sa)
    ensures tmp[sa[p]] >= 0
    ensures tmp[sa[p]] < tmp[sa[q]] <==> Less(rank, k, sa[p], sa[q])
  {
    hide Key2;
  }

  /** When the last rank is n - 1, all ranks differ and the order is the suffix order. */
  lemma AllRanked(s: seq<int>, rank: seq<int>, k: nat, sa: seq<nat>, tmp: seq<int>)
    requires RanksBy(s, rank, k) && k > 0 && |sa| == |s| == |tmp| > 0 && IsPermutation(sa)
    requires Reranked(rank, k, sa, tmp, |sa|) && SortedBy(rank, k, sa)
    ensures tmp[sa[|sa| - 1]] == |sa| - 1 ==> IsSuffixArray(s, sa)
    ensures 2 * k >= |s| ==> tmp[sa[|sa| - 1]] == |sa| - 1
  {
    if tmp[sa[|sa| - 1]] == |sa| - 1 {
      forall p, q | 0 <= p < q < |sa|
        ensures SuffixLess(s, sa[p], sa[q])
      {
        RankAtPosition(rank, k, sa, tmp, p);
        RankAtPosition(rank, k, sa, tmp, q);
        RerankedPair(rank, k, sa, tmp, p, q);
        LessDoubles(s, rank, k, sa[p], sa[q]);
        CompareFull(s, sa[p], sa[q], 2 * k);
      }
    }
    if 2 * k >= |s| {
      LastRank(s, rank, k, sa, tmp, |sa| - 1);
    }
  }

  lemma RankAtPosition(rank: seq<int>, k: nat, sa: seq<nat>, tmp: seq<int>, p: nat)
    requires |sa| == |rank| == |tmp| && p < |sa| && IsPermutation(sa)
    requires Reranked(rank, k, sa, tmp, |sa|) && tmp[sa[|sa| - 1]] == |sa| - 1
    ensures tmp[sa[p]] == p
  {
    hide Less;
  }

  lemma {:induction false} LastRank(s: seq<int>, rank: seq<int>, k: nat, sa: seq<nat>, tmp: seq<int>, p: nat)
    requires RanksBy(s, rank, k) && k > 0 && |sa| == |s| == |tmp| && IsPermutation(sa) && p < |sa|
    requires Reranked(rank, k, sa, tmp, |sa|) && SortedBy(rank, k, sa) && 2 * k >= |s|
    ensures tmp[sa[p]] == p
  {
    if p > 0 {
      LastRank(s, rank, k, sa, tmp, p - 1);
      CompareDistinct(s, sa[p - 1], sa[p], 2 * k);
      CompareSwap(s, sa[p - 1], sa[p], 2 * k);
      LessDoubles(s, rank, k, sa[p - 1], sa[p]);
      LessDoubles(s, rank, k, sa[p], sa[p - 1]);
      RerankedPair(rank, k, sa, tmp, p - 1, p);
      RerankedStep(rank, k, sa, tmp, p);
    }
  }

  lemma RerankedStep(rank: seq<int>, k: nat, sa: seq<nat>, tmp: seq<int>, p: nat)
    requires IsPermutation(sa) && |sa| == |rank| == |tmp| && 0 < p < |sa|
    requires Reranked(rank, k, sa, tmp, |sa|) && SortedBy(rank, k, sa)
    ensures tmp[sa[p]] <= tmp[sa[p - 1]] + 1
    ensures !Less(rank, k, sa[p], sa[p - 1])
  {
    hide Less;
  }

  lemma InitialRanks(s: seq<int>)
    requires forall i :: 0 <= i < |s| ==> s[i] >= 0
    ensures RanksBy(s, s, 1)
  {
  }

  lemma Identity(p: seq<nat>)
    requires forall i :: 0 <= i < |p| ==> p[i] == i
    ensures IsPermutation(p)
  {
  }

  method CopyRanks(rank: array<int>, tmp: array<int>)
    requires rank != tmp && rank.Length == tmp.Length
    modifies rank
    ensures rank[..] == tmp[..]
  {
    for i := 0 to rank.Length
      invariant forall j :: 0 <= j < i ==> rank[j] == tmp[j]
    {
      rank[i] := tmp[i];
    }
  }

  /** The suffix array of any non-empty text over non-negative symbols; the doubling ends. */
  method BuildSuffixArray(s: seq<int>) returns (result: seq<nat>)
    requires |s| > 0 && forall i :: 0 <= i < |s| ==> s[i] >= 0
    ensures IsSuffixArray(s, result)
  {
    hide RanksBy, Reranked, SortedBy, IsSuffixArray, IsPermutation, Key2, Less, Compare;
    var n := |s|;
    var sa := new nat[n](i => i);
    var rank := new int[n](i requires 0 <= i < n => s[i]);
    var tmp := new int[n](i => 0);
    assert rank[..] == s;
    InitialRanks(s);
    Identity(sa[..]);
    var k := 1;
    while true
      invariant IsPermutation(sa[..])
      invariant 1 <= k <= n && RanksBy(s, rank[..], k)
      decreases n - k
    {
      Sort(sa, rank[..], k);
      Rerank(sa, rank[..], k, tmp);
      RerankDoubles(s, rank[..], k, sa[..], tmp[..]);
      AllRanked(s, rank[..], k, sa[..], tmp[..]);
      CopyRanks(rank, tmp);
      if rank[sa[n - 1]] == n - 1 {
        break;
      }
      k := k * 2;
    }
    result := sa[..];
  }

  /** A text has only one suffix array. */
  lemma SuffixArrayUnique(s: seq<int>, a: seq<nat>, b: seq<nat>)
    requires IsSuffixArray(s, a) && IsSuffixArray(s, b)
    ensures a == b
  {
    forall p | 0 <= p < |s|
      ensures a[p] == b[p]
    {
      SameUpTo(s, a, b, p + 1);
    }
  }

  lemma SamePrefix(a: seq<nat>, b: seq<nat>, p: nat)
    requires p <= |a| == |b| && a[..p] == b[..p]
    ensures forall i :: 0 <= i < p ==> a[i] == b[i]
  {
    assert forall i :: 0 <= i < p ==> a[i] == a[..p][i] && b[i] == b[..p][i];
  }

  lemma {:induction false} SameUpTo(s: seq<int>, a: seq<nat>, b: seq<nat>, m: nat)
    requires IsSuffixArray(s, a) && IsSuffixArray(s, b) && m <= |s|
    ensures a[..m] == b[..m]
  {
    if m > 0 {
      var p := m - 1;
      SameUpTo(s, a, b, p);
      SamePrefix(a, b, p);
      if a[p] != b[p] {
        var i := Surjective(b, a[p]);
        var j := Surjective(a, b[p]);
        assert i > p && j > p;
        assert SuffixLess(s, b[p], b[i]) && SuffixLess(s, a[p], a[j]);
        CompareSwap(s, a[p], b[p], |s|);
        assert false;
      }
      assert a[..m] == a[..p] + [a[p]] && b[..m] == b[..p] + [b[p]];
    }
  }
}
