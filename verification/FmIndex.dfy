/** The FM-index on the Burrows-Wheeler transform of a text that ends in a unique smallest symbol:
    one backward step maps row boundaries to row boundaries. */
module FmIndex {
  import opened Bits
  import opened Permutations
  import opened SuffixArray
  import opened Wavelet

  /** Ends in 0 and holds no other 0. */
  ghost predicate Terminated(s: seq<int>) {
    && |s| > 0 && s[|s| - 1] == 0
    && forall i :: 0 <= i < |s| - 1 ==> s[i] > 0
  }

  /** The cyclic successor of a text position. */
  function Next(n: nat, t: nat): (u: nat)
    requires t < n
    ensures u < n
  {
    if t + 1 == n then 0 else t + 1
  }

  /** For each row, the symbol that cyclically precedes its suffix. */
  function Bwt(s: seq<int>, sa: seq<nat>): (bwt: seq<int>)
    requires IsSuffixArray(s, sa)
    ensures |bwt| == |s|
  {
    seq(|sa|, i requires 0 <= i < |sa| => s[(sa[i] - 1 + |s|) % |s|])
  }

  /** Every symbol of the transform is a symbol of the text. */
  lemma BwtFromText(s: seq<int>, sa: seq<nat>, i: nat) returns (j: nat)
    requires IsSuffixArray(s, sa) && i < |s|
    ensures j < |s| && Bwt(s, sa)[i] == s[j]
  {
    hide SuffixLess;
    j := (sa[i] - 1 + |s|) % |s|;
  }

  /** How many symbols of the text are below c. */
  function CountLess(text: seq<int>, c: int): (n: nat)
    ensures n <= |text|
  {
    if text == [] then 0
    else CountLess(text[..|text| - 1], c) + (if text[|text| - 1] < c then 1 else 0)
  }

  /** The row of the suffix that follows row r's suffix in the text. */
  ghost function Follow(s: seq<int>, sa: seq<nat>, r: nat): (q: nat)
    requires IsSuffixArray(s, sa) && r < |sa|
    ensures q < |sa| && sa[q] == Next(|s|, sa[r])
  {
    IndexOf(sa, Next(|s|, sa[r]))
  }

  ghost function Follows(s: seq<int>, sa: seq<nat>): (psi: seq<nat>)
    requires IsSuffixArray(s, sa)
    ensures |psi| == |sa| && forall r :: 0 <= r < |sa| ==> psi[r] == Follow(s, sa, r)
  {
    seq(|sa|, r requires 0 <= r < |sa| => Follow(s, sa, r))
  }

  lemma FollowsPermutes(s: seq<int>, sa: seq<nat>)
    requires IsSuffixArray(s, sa)
    ensures IsPermutation(Follows(s, sa))
  {
    hide SuffixLess;
    var psi := Follows(s, sa);
    forall i, j | 0 <= i < j < |sa|
      ensures psi[i] != psi[j]
    {
      assert sa[psi[i]] == Next(|s|, sa[i]) && sa[psi[j]] == Next(|s|, sa[j]);
    }
  }

  /** The transform at the following row is the first symbol of this row's suffix. */
  lemma BwtFollow(s: seq<int>, sa: seq<nat>, r: nat)
    requires IsSuffixArray(s, sa) && r < |sa|
    ensures Bwt(s, sa)[Follow(s, sa, r)] == s[sa[r]]
  {
    hide SuffixLess;
    PrevOfNext(|s|, sa[r]);
  }

  lemma PrevOfNext(n: nat, t: nat)
    requires t < n
    ensures (Next(n, t) - 1 + n) % n == t
  {
    if t + 1 < n {
      assert (t + n) % n == t by { ModWrap(t, n); }
    }
  }

  lemma ModWrap(t: nat, n: nat)
    requires t < n
    ensures (t + n) % n == t
  {
    assert (t + n) / n == 1;
  }

  // ---- counting rows ------------------------------------------------------------------------

  /** Rows below m whose transform symbol is below c, or is c above row i. */
  function LowerRows(bwt: seq<int>, m: nat, c: int, i: nat): (rows: set<nat>)
    requires m <= |bwt| && i <= |bwt|
    ensures forall r: nat :: r in rows <==> r < m && (bwt[r] < c || (bwt[r] == c && r < i))
  {
    if m == 0 then {}
    else LowerRows(bwt, m - 1, c, i) + (if bwt[m - 1] < c || (bwt[m - 1] == c && m - 1 < i) then {m - 1} else {})
  }

  lemma CountLessNext(bwt: seq<int>, m: nat, c: int)
    requires m < |bwt|
    ensures CountLess(bwt[..m + 1], c) == CountLess(bwt[..m], c) + (if bwt[m] < c then 1 else 0)
    ensures Occurrences(bwt[..m + 1], c) == Occurrences(bwt[..m], c) + (if bwt[m] == c then 1 else 0)
  {
    assert bwt[..m + 1][..m] == bwt[..m];
  }

  lemma CountEmpty(c: int)
    ensures CountLess([], c) == 0 && Occurrences([], c) == 0
  {
  }

  lemma {:induction false} LowerRowsSize(bwt: seq<int>, m: nat, c: int, i: nat)
    requires m <= |bwt| && i <= |bwt|
    ensures |LowerRows(bwt, m, c, i)| == CountLess(bwt[..m], c) + Occurrences(bwt[..Min(i, m)], c)
  {
    hide CountLess, Occurrences;
    CountEmpty(c);
    if m > 0 {
      LowerRowsSize(bwt, m - 1, c, i);
      CountLessNext(bwt, m - 1, c);
    } else {
      assert bwt[..0] == [];
    }
  }

  /** Rows whose suffix starts below c, or starts with c and is followed by a row above i. */
  ghost predicate StartsLower(s: seq<int>, sa: seq<nat>, c: int, i: nat, r: nat)
    requires IsSuffixArray(s, sa) && r < |sa|
  {
    s[sa[r]] < c || (s[sa[r]] == c && Follow(s, sa, r) < i)
  }

  ghost function LowerStarts(s: seq<int>, sa: seq<nat>, c: int, i: nat): (rows: set<nat>)
    requires IsSuffixArray(s, sa)
    ensures forall r: nat :: r in rows <==> r < |sa| && StartsLower(s, sa, c, i, r)
  {
    set r | r in Range(|sa|) && StartsLower(s, sa, c, i, r)
  }

  /** Following maps the one set of rows onto the other. */
  lemma LowerStartsSize(s: seq<int>, sa: seq<nat>, c: int, i: nat)
    requires IsSuffixArray(s, sa) && i <= |s|
    ensures |LowerStarts(s, sa, c, i)| == CountLess(Bwt(s, sa), c) + Occurrences(Bwt(s, sa)[..i], c)
  {
    hide CountLess, Occurrences, Bwt, SuffixLess;
    var psi, bwt, B := Follows(s, sa), Bwt(s, sa), LowerStarts(s, sa, c, i);
    var n := |s|;
    FollowsPermutes(s, sa);
    ImageSize(psi, B);
    forall q: nat
      ensures q in Image(psi, B) <==> q in LowerRows(bwt, n, c, i)
    {
      ImageOfLower(s, sa, c, i, q);
    }
    assert Image(psi, B) == LowerRows(bwt, n, c, i);
    LowerRowsSize(bwt, n, c, i);
    assert bwt[..n] == bwt;
  }

  lemma ImageOfLower(s: seq<int>, sa: seq<nat>, c: int, i: nat, q: nat)
    requires IsSuffixArray(s, sa) && i <= |s|
    ensures q in Image(Follows(s, sa), LowerStarts(s, sa, c, i)) <==> q in LowerRows(Bwt(s, sa), |s|, c, i)
  {
    hide CountLess, Occurrences, Bwt, SuffixLess;
    var psi := Follows(s, sa);
    FollowsPermutes(s, sa);
    if q < |s| {
      var r := Surjective(psi, q);
      BwtFollow(s, sa, r);
    }
  }

  // ---- the order of following rows ----------------------------------------------------------

  lemma RowsOrdered(s: seq<int>, sa: seq<nat>, p: nat, q: nat)
    requires IsSuffixArray(s, sa) && p < |sa| && q < |sa| && SuffixLess(s, sa[p], sa[q])
    ensures p < q
  {
    hide Compare;
    CompareSwap(s, sa[p], sa[q], |s|);
    CompareSelf(s, sa[p], |s|);
  }

  /** Two rows that start alike are followed in the same order. */
  lemma FollowMonotone(s: seq<int>, sa: seq<nat>, p: nat, q: nat)
    requires Terminated(s) && IsSuffixArray(s, sa) && p < q < |sa|
    ensures s[sa[p]] <= s[sa[q]]
    ensures s[sa[p]] == s[sa[q]] ==> Follow(s, sa, p) < Follow(s, sa, q)
  {
    assert SuffixLess(s, sa[p], sa[q]);
    if s[sa[p]] == s[sa[q]] {
      assert sa[p] + 1 < |s| && sa[q] + 1 < |s|;
      assert Compare(s, sa[p] + 1, sa[q] + 1, |s| - 1) < 0;
      CompareFull(s, sa[p] + 1, sa[q] + 1, |s| - 1);
      RowsOrdered(s, sa, Follow(s, sa, p), Follow(s, sa, q));
    }
  }

  /** The step of the backward search, for any symbol and any row boundary: the rows above the new
      boundary are those that start below c, or start with c and are followed by a row above the old one. */
  lemma BackwardStep(s: seq<int>, sa: seq<nat>, c: int, i: nat)
    requires Terminated(s) && IsSuffixArray(s, sa) && i <= |s|
    ensures var b := CountLess(Bwt(s, sa), c) + Occurrences(Bwt(s, sa)[..i], c);
            b <= |s| && forall r :: 0 <= r < |sa| ==> (r < b <==> StartsLower(s, sa, c, i, r))
  {
    hide SuffixLess, CountLess, Occurrences, Bwt, Terminated;
    var B := LowerStarts(s, sa, c, i);
    forall p, q | 0 <= p < q && q in B
      ensures p in B
    {
      FollowMonotone(s, sa, p, q);
    }
    InitialSegment(B, |sa|);
    LowerStartsSize(s, sa, c, i);
    assert B <= Range(|sa|);
    SubsetSize(B, Range(|sa|));
  }

  // ---- matching -------------------------------------------------------------------------------

  /** The pattern is read from position t on, cyclically. */
  ghost predicate CyclicMatch(s: seq<int>, t: nat, pat: seq<int>)
    requires t < |s|
    decreases |pat|
  {
    pat == [] || (s[t] == pat[0] && CyclicMatch(s, Next(|s|, t), pat[1..]))
  }

  /** The rows [lo, hi) are exactly those whose suffix reads the pattern. */
  ghost predicate RowsOf(s: seq<int>, sa: seq<nat>, pat: seq<int>, lo: int, hi: int)
    requires IsSuffixArray(s, sa)
  {
    && 0 <= lo <= hi <= |s|
    && forall r :: 0 <= r < |sa| ==> (lo <= r < hi <==> CyclicMatch(s, sa[r], pat))
  }

  lemma RowsOfAll(s: seq<int>, sa: seq<nat>)
    requires IsSuffixArray(s, sa)
    ensures RowsOf(s, sa, [], 0, |s|)
  {
  }

  lemma {:induction false} OccurrencesMonotone(bwt: seq<int>, c: int, i: nat, j: nat)
    requires i <= j <= |bwt|
    ensures Occurrences(bwt[..i], c) <= Occurrences(bwt[..j], c)
    decreases j
  {
    if i < j {
      OccurrencesMonotone(bwt, c, i, j - 1);
      CountLessNext(bwt, j - 1, c);
    }
  }

  /** Prepending a symbol moves both boundaries by the same rule. */
  lemma RowsOfStep(s: seq<int>, sa: seq<nat>, pat: seq<int>, lo: nat, hi: nat, c: int)
    requires Terminated(s) && IsSuffixArray(s, sa) && RowsOf(s, sa, pat, lo, hi)
    ensures var bwt := Bwt(s, sa);
            RowsOf(s, sa, [c] + pat, CountLess(bwt, c) + Occurrences(bwt[..lo], c),
                                     CountLess(bwt, c) + Occurrences(bwt[..hi], c))
  {
    hide SuffixLess, CountLess, Occurrences, Bwt, Terminated;
    BackwardStep(s, sa, c, lo);
    BackwardStep(s, sa, c, hi);
    var lo' := CountLess(Bwt(s, sa), c) + Occurrences(Bwt(s, sa)[..lo], c);
    var hi' := CountLess(Bwt(s, sa), c) + Occurrences(Bwt(s, sa)[..hi], c);
    OccurrencesMonotone(Bwt(s, sa), c, lo, hi);
    forall r | 0 <= r < |sa|
      ensures lo' <= r < hi' <==> CyclicMatch(s, sa[r], [c] + pat)
    {
      MatchPrepended(s, sa[r], pat, c);
      assert (r < lo' <==> StartsLower(s, sa, c, lo, r)) && (r < hi' <==> StartsLower(s, sa, c, hi, r));
      assert lo <= Follow(s, sa, r) < hi <==> CyclicMatch(s, sa[Follow(s, sa, r)], pat);
    }
  }

  lemma MatchPrepended(s: seq<int>, t: nat, pat: seq<int>, c: int)
    requires t < |s|
    ensures CyclicMatch(s, t, [c] + pat) <==> s[t] == c && CyclicMatch(s, Next(|s|, t), pat)
  {
    assert ([c] + pat)[1..] == pat;
  }

  /** A symbol that does not occur empties the range; an empty range stays empty. */
  lemma RowsOfNone(s: seq<int>, sa: seq<nat>, pat: seq<int>, lo: int, hi: int, c: int)
    requires IsSuffixArray(s, sa) && RowsOf(s, sa, pat, lo, hi)
    requires lo == hi || forall i :: 0 <= i < |s| ==> s[i] != c
    ensures forall b :: 0 <= b <= |s| ==> RowsOf(s, sa, [c] + pat, b, b)
  {
    hide SuffixLess;
    forall r | 0 <= r < |sa|
      ensures !CyclicMatch(s, sa[r], [c] + pat)
    {
      MatchPrepended(s, sa[r], pat, c);
      assert lo <= Follow(s, sa, r) < hi <==> CyclicMatch(s, sa[Follow(s, sa, r)], pat);
    }
  }

  /** Without the terminator in the pattern, reading it cyclically is finding it in the text. */
  lemma {:induction false} MatchIsSubstring(s: seq<int>, t: nat, pat: seq<int>)
    requires Terminated(s) && t < |s| && forall i :: 0 <= i < |pat| ==> pat[i] != 0
    ensures CyclicMatch(s, t, pat) <==> t + |pat| < |s| && s[t..t + |pat|] == pat
    decreases |pat|
  {
    if pat != [] {
      if t + 1 < |s| {
        MatchIsSubstring(s, t + 1, pat[1..]);
        if t + |pat| < |s| {
          assert s[t..t + |pat|] == [s[t]] + s[t + 1..t + |pat|];
          assert pat == [pat[0]] + pat[1..];
        }
      }
    }
  }

  // ---- one step back --------------------------------------------------------------------------

  /** The row reached from row r by one LF step holds the preceding text position. */
  lemma StepBack(s: seq<int>, sa: seq<nat>, r: nat)
    requires Terminated(s) && IsSuffixArray(s, sa) && r < |sa|
    ensures var bwt := Bwt(s, sa);
            var q := CountLess(bwt, bwt[r]) + Occurrences(bwt[..r], bwt[r]);
            q < |sa| && Next(|s|, sa[q]) == sa[r] && (sa[r] > 0 ==> sa[q] == sa[r] - 1)
  {
    hide Compare, SuffixLess, CountLess, Occurrences;
    var bwt := Bwt(s, sa);
    var c := bwt[r];
    FollowsPermutes(s, sa);
    var q := Surjective(Follows(s, sa), r);
    BwtFollow(s, sa, q);
    BackwardStep(s, sa, c, r);
    BackwardStep(s, sa, c, r + 1);
    CountLessNext(bwt, r, c);
    assert StartsLower(s, sa, c, r + 1, q) && !StartsLower(s, sa, c, r, q);
  }
}
