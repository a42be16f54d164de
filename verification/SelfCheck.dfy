/** The program: build the index of a token stream, then check it against the stream itself. */
module SelfCheck {
  import opened Bits
  import opened Common
  import opened SuffixArray
  import opened LevelRank
  import opened WaveletIndex
  import opened WaveletBuild
  import opened FmIndex
  import opened FmQuery

  // ---- sizes ------------------------------------------------------------------------------------

  /** The bits kept per symbol: the least b >= 1 with sigma <= 2^b. */
  function BitWidth(sigma: nat): (b: nat)
    ensures b >= 1 && sigma <= Pow2(b) && (b > 1 ==> Pow2(b - 1) < sigma)
  {
    CountUp(sigma, 1)
  }

  function CountUp(sigma: nat, from: nat): (b: nat)
    requires from >= 1 && (from > 1 ==> Pow2(from - 1) < sigma)
    ensures b >= from && sigma <= Pow2(b) && (b > 1 ==> Pow2(b - 1) < sigma)
    decreases sigma - Pow2(from)
  {
    if sigma <= Pow2(from) then from else CountUp(sigma, from + 1)
  }

  lemma BitWidthMonotone(a: nat, b: nat)
    requires a <= b
    ensures BitWidth(a) <= BitWidth(b)
  {
    if BitWidth(a) > BitWidth(b) {
      PowMonotone(BitWidth(b), BitWidth(a) - 1);
    }
  }

  function Largest(xs: seq<int>): (m: nat)
    ensures forall i :: 0 <= i < |xs| ==> xs[i] <= m
  {
    if xs == [] then 0
    else
      var m := Largest(xs[..|xs| - 1]);
      if xs[|xs| - 1] > m then xs[|xs| - 1] else m
  }

  /** The largest alphabet whose bits the builder can count. */
  const MAX_SIGMA: nat := 0x4000_0000

  /** The alphabet can be counted, and all cumulative counts and bit positions fit signed 32-bit integers. */
  ghost predicate Fits(tokens: seq<int>) {
    && (forall i :: 0 <= i < |tokens| ==> tokens[i] >= 0)
    && Largest(tokens) + 2 <= MAX_SIGMA
    && BitWidth(Largest(tokens) + 2) * (|tokens| + 110) < 0x8000_0000
    && |tokens| + 1 < 0x7fff_ff00
  }

  // ---- building -----------------------------------------------------------------------------------

  function Shifted(xs: seq<int>): (r: seq<int>)
    ensures |r| == |xs| && forall i :: 0 <= i < |xs| ==> r[i] == xs[i] + 1
  {
    seq(|xs|, i requires 0 <= i < |xs| => xs[i] + 1)
  }

  /** The indexed text: every token plus one, then the terminator. */
  function TextOf(tokens: seq<int>): (s: seq<int>)
    ensures |s| == |tokens| + 1
    ensures (forall i :: 0 <= i < |tokens| ==> tokens[i] >= 0) ==> Terminated(s)
  {
    Shifted(tokens) + [0]
  }

  /** Every token narrowed to 32 bits and shifted by one, then the terminator. */
  method MakeText(tokens: seq<int>) returns (s: seq<int>)
    requires forall i :: 0 <= i < |tokens| ==> 0 <= tokens[i]
    requires Largest(tokens) + 2 <= MAX_SIGMA
    ensures s == TextOf(tokens)
  {
    hide Largest;
    s := [];
    for i := 0 to |tokens|
      invariant s == Shifted(tokens)[..i]
    {
      s := s + [Int32(Int32(tokens[i]) + 1)];
    }
    assert Shifted(tokens)[..|tokens|] == Shifted(tokens);
    s := s + [0];
  }

  method Transform(s: seq<int>, sa: seq<nat>) returns (bwt: seq<int>)
    requires IsSuffixArray(s, sa)
    ensures bwt == Bwt(s, sa)
  {
    hide SuffixLess;
    bwt := [];
    for i := 0 to |sa|
      invariant |bwt| == i && forall j :: 0 <= j < i ==> bwt[j] == Bwt(s, sa)[j]
    {
      bwt := bwt + [s[(sa[i] - 1 + |s|) % |s|]];
    }
  }

  method LargestOf(bwt: seq<int>) returns (m: int)
    requires |bwt| > 0
    ensures m in bwt && forall i :: 0 <= i < |bwt| ==> bwt[i] <= m
  {
    m := bwt[0];
    for i := 1 to |bwt|
      invariant m in bwt && forall j :: 0 <= j < i ==> bwt[j] <= m
    {
      if bwt[i] > m {
        m := bwt[i];
      }
    }
  }

  /** `1 << bits` on a 32-bit int: the top bit makes it negative, and from 32 on it has no value. */
  function ShiftedOne(bits: nat): Option<int> {
    if bits < 32 then Some(Int32(Pow2(bits))) else None
  }

  /** The powers of two that a 32-bit int holds, and the one it does not. */
  lemma ShiftedOneIs(bits: nat)
    ensures bits <= 30 ==> ShiftedOne(bits) == Some(Pow2(bits)) && Pow2(bits) <= MAX_SIGMA
    ensures bits == 31 ==> ShiftedOne(bits) == Some(-0x8000_0000)
    ensures bits == 30 ==> Pow2(bits) == MAX_SIGMA
  {
    assert Pow2(30) == MAX_SIGMA by { PowAdd(15, 15); assert Pow2(15) == 32768 by { PowAdd(8, 7); } }
    if bits <= 30 {
      PowMonotone(bits, 30);
    }
  }

  /** The number of bits per symbol, counted up from one; none when the shift runs out first, which happens exactly
      for alphabets of more than 2^30 symbols. */
  method BitsFor(sigma: nat) returns (r: Option<nat>)
    ensures r.Some? <==> sigma <= MAX_SIGMA
    ensures r.Some? ==> r.value == BitWidth(sigma)
  {
    hide Pow2, BitWidth, CountUp;
    var bits := 1;
    while true
      invariant 1 <= bits <= 32 && (1 < bits <= 31 ==> Pow2(bits - 1) < sigma) && (bits > 30 ==> sigma > MAX_SIGMA)
      decreases 32 - bits
    {
      var power := ShiftedOne(bits);
      ShiftedOneIs(bits);
      if power == None {
        return None;
      }
      if power.value >= sigma {
        BitWidthIs(sigma, bits);
        return Some(bits);
      }
      bits := bits + 1;
    }
  }

  lemma BitWidthIs(sigma: nat, bits: nat)
    requires bits >= 1 && sigma <= Pow2(bits) && (bits > 1 ==> Pow2(bits - 1) < sigma)
    ensures bits == BitWidth(sigma)
  {
    hide Pow2, CountUp;
    if bits < BitWidth(sigma) {
      PowMonotone(bits, BitWidth(sigma) - 1);
    } else if bits > BitWidth(sigma) {
      PowMonotone(BitWidth(sigma), bits - 1);
    }
  }

  lemma TextSymbol(tokens: seq<int>, j: nat)
    requires forall i :: 0 <= i < |tokens| ==> tokens[i] >= 0
    requires j <= |tokens|
    ensures 0 <= TextOf(tokens)[j] <= Largest(tokens) + 1
  {
  }

  lemma BwtSymbol(tokens: seq<int>, sa: seq<nat>, i: nat)
    requires forall i :: 0 <= i < |tokens| ==> tokens[i] >= 0
    requires IsSuffixArray(TextOf(tokens), sa) && i <= |tokens|
    ensures 0 <= Bwt(TextOf(tokens), sa)[i] <= Largest(tokens) + 1
  {
    hide SuffixLess, Largest, TextOf, Bwt, Permutations.IsPermutation;
    var j := BwtFromText(TextOf(tokens), sa, i);
    TextSymbol(tokens, j);
  }

  lemma IndexFits(tokens: seq<int>, sigma: nat)
    requires Fits(tokens) && sigma <= Largest(tokens) + 2
    ensures BitWidth(sigma) * (|tokens| + 1 + 109) < 0x8000_0000
  {
    hide BitWidth, Largest;
    BitWidthMonotone(sigma, Largest(tokens) + 2);
    var d := BitWidth(Largest(tokens) + 2) - BitWidth(sigma);
    assert d * (|tokens| + 110) >= 0;
  }

  /** The whole build, for every token stream that fits. */
  method BuildIndex(tokens: seq<int>, saSample: nat)
    returns (w: RrrWavelet, fm: FmOracle, bwt: seq<int>, sa: seq<nat>)
    requires Fits(tokens) && saSample > 0
    ensures Indexes(w, fm, TextOf(tokens), sa) && bwt == Bwt(TextOf(tokens), sa)
  {
    hide SuffixLess, Bwt, BitWidth, Largest, Holds, Pow2;
    var s := MakeText(tokens);
    sa := BuildSuffixArray(s);
    bwt := Transform(s, sa);
    var top := LargestOf(bwt);
    forall i | 0 <= i < |bwt|
      ensures 0 <= bwt[i] <= Largest(tokens) + 1
    {
      BwtSymbol(tokens, sa, i);
    }
    var sigma := top + 1;
    var bits := BitsFor(sigma);
    IndexFits(tokens, sigma);
    w := BuildWavelet(bwt, bits.value);
    fm := BuildOracle(bwt, sa, sigma, saSample);
    BwtAlphabet(s, sa, sigma);
  }

  // ---- the ground truth ---------------------------------------------------------------------------

  ghost predicate OccursAt(tokens: seq<int>, p: seq<int>, i: int) {
    0 <= i && i + |p| <= |tokens| && tokens[i..i + |p|] == p
  }

  ghost predicate Increasing(xs: seq<int>) {
    forall i, j :: 0 <= i < j < |xs| ==> xs[i] < xs[j]
  }

  /** All occurrences of a non-empty pattern, in increasing order. */
  ghost predicate AllOccurrences(tokens: seq<int>, p: seq<int>, xs: seq<int>) {
    && Increasing(xs)
    && forall i :: i in xs <==> p != [] && OccursAt(tokens, p, i)
  }

  /** Tries every position, symbol by symbol. */
  method NaivePositions(tokens: seq<int>, p: seq<int>) returns (out: seq<int>)
    ensures AllOccurrences(tokens, p, out)
  {
    out := [];
    var m := |p|;
    if m == 0 || m > |tokens| {
      return;
    }
    for i := 0 to |tokens| - m + 1
      invariant Increasing(out) && forall k :: 0 <= k < |out| ==> out[k] < i
      invariant forall x :: x in out <==> x < i && OccursAt(tokens, p, x)
    {
      var ok := MatchesAt(tokens, p, i);
      if ok {
        out := out + [i];
      }
    }
  }

  method MatchesAt(tokens: seq<int>, p: seq<int>, i: nat) returns (ok: bool)
    requires i + |p| <= |tokens|
    ensures ok <==> OccursAt(tokens, p, i)
  {
    ok := true;
    var j := 0;
    while j < |p|
      invariant 0 <= j <= |p| && ok
      invariant forall k :: 0 <= k < j ==> tokens[i + k] == p[k]
    {
      if tokens[i + j] != p[j] {
        assert tokens[i..i + |p|][j] != p[j];
        return false;
      }
      j := j + 1;
    }
  }

  // ---- sorting the located positions ----------------------------------------------------------------

  ghost predicate Distinct(xs: seq<int>) {
    forall i, j :: 0 <= i < j < |xs| ==> xs[i] != xs[j]
  }

  /** Stands for the library sort. */
  method SortValues(xs: seq<int>) returns (ys: seq<int>)
    ensures multiset(ys) == multiset(xs)
    ensures forall i, j :: 0 <= i < j < |ys| ==> ys[i] <= ys[j]
  {
    ys := [];
    for i := 0 to |xs|
      invariant multiset(ys) == multiset(xs[..i])
      invariant forall a, b :: 0 <= a < b < |ys| ==> ys[a] <= ys[b]
    {
      assert xs[..i + 1] == xs[..i] + [xs[i]];
      ys := Insert(ys, xs[i]);
    }
    assert xs[..|xs|] == xs;
  }

  function Insert(ys: seq<int>, x: int): (r: seq<int>)
    requires forall a, b :: 0 <= a < b < |ys| ==> ys[a] <= ys[b]
    ensures forall a, b :: 0 <= a < b < |r| ==> r[a] <= r[b]
    ensures multiset(r) == multiset(ys) + multiset{x}
  {
    if ys == [] || ys[|ys| - 1] <= x then ys + [x]
    else
      var init, last := ys[..|ys| - 1], ys[|ys| - 1];
      var r := Insert(init, x);
      assert ys == init + [last];
      MembersAtMost(init, x, r, last);
      r + [last]
  }

  lemma MembersAtMost(init: seq<int>, x: int, r: seq<int>, last: int)
    requires multiset(r) == multiset(init) + multiset{x} && x <= last
    requires forall a :: 0 <= a < |init| ==> init[a] <= last
    ensures forall a :: 0 <= a < |r| ==> r[a] <= last
  {
    forall a | 0 <= a < |r|
      ensures r[a] <= last
    {
      assert r[a] in multiset(r);
      assert r[a] in init || r[a] == x;
    }
  }

  lemma {:induction false} DistinctCounts(xs: seq<int>, x: int)
    requires Distinct(xs)
    ensures multiset(xs)[x] <= 1
  {
    if xs != [] {
      var init, last := xs[..|xs| - 1], xs[|xs| - 1];
      DistinctCounts(init, x);
      assert xs == init + [last];
      assert last !in init;
    }
  }

  lemma RepeatCounts(xs: seq<int>, i: nat, j: nat)
    requires i < j < |xs| && xs[i] == xs[j]
    ensures multiset(xs)[xs[i]] >= 2
  {
    assert xs == xs[..j] + xs[j..];
    assert xs[i] in xs[..j] && xs[j] in xs[j..];
  }

  /** Sorting distinct numbers gives an increasing list of the same numbers. */
  lemma SortedDistinct(xs: seq<int>, ys: seq<int>)
    requires Distinct(xs) && multiset(ys) == multiset(xs)
    requires forall i, j :: 0 <= i < j < |ys| ==> ys[i] <= ys[j]
    ensures Increasing(ys) && forall x :: x in ys <==> x in xs
  {
    forall i, j | 0 <= i < j < |ys|
      ensures ys[i] < ys[j]
    {
      if ys[i] == ys[j] {
        RepeatCounts(ys, i, j);
        DistinctCounts(xs, ys[i]);
      }
    }
    assert forall x :: x in ys <==> x in multiset(ys);
    assert forall x :: x in xs <==> x in multiset(xs);
  }

  lemma FirstIsMember(xs: seq<int>)
    ensures xs != [] ==> xs[0] in xs
  {
  }

  /** Increasing lists with the same members are equal. */
  lemma {:induction false} IncreasingUnique(a: seq<int>, b: seq<int>)
    requires Increasing(a) && Increasing(b) && forall x :: x in a <==> x in b
    ensures a == b
  {
    if a == [] || b == [] {
      FirstIsMember(a);
      FirstIsMember(b);
    } else {
      var x, y := a[|a| - 1], b[|b| - 1];
      assert x in b && y in a;
      assert x == y;
      var a', b' := a[..|a| - 1], b[..|b| - 1];
      forall z
        ensures z in a' <==> z in b'
      {
        MembersBelowLast(a, z);
        MembersBelowLast(b, z);
      }
      IncreasingUnique(a', b');
      assert a == a' + [x] && b == b' + [y];
    }
  }

  lemma MembersBelowLast(a: seq<int>, z: int)
    requires Increasing(a) && a != []
    ensures z in a[..|a| - 1] <==> z in a && z != a[|a| - 1]
  {
    if z in a && z != a[|a| - 1] {
      var i :| 0 <= i < |a| && a[i] == z;
      assert a[..|a| - 1][i] == z;
    }
  }

  // ---- the self-check --------------------------------------------------------------------------------

  /** Access rebuilds the transform at every sampled position. */
  method CheckAccess(w: RrrWavelet, bwt: seq<int>, positions: seq<nat>) returns (ok: bool)
    requires Holds(w, bwt) && forall i :: 0 <= i < |positions| ==> positions[i] < |bwt|
    ensures ok
  {
    hide Holds;
    ok := true;
    for i := 0 to |positions|
      invariant ok
    {
      var x := Access(w, bwt, positions[i]);
      if x != bwt[positions[i]] {
        ok := false;
      }
    }
  }

  /** Some position reads the shifted pattern cyclically, through the terminator. */
  ghost predicate ReadCyclically(tokens: seq<int>, p: seq<int>) {
    exists t :: 0 <= t <= |tokens| && CyclicMatch(TextOf(tokens), t, Shifted(p))
  }

  /** A shifted pattern without the terminator stands at a text position exactly when the pattern
      occurs there in the stream. */
  lemma ShiftedMatch(tokens: seq<int>, p: seq<int>, t: nat)
    requires (forall i :: 0 <= i < |tokens| ==> tokens[i] >= 0) && t <= |tokens| && -1 !in p
    ensures CyclicMatch(TextOf(tokens), t, Shifted(p)) <==> OccursAt(tokens, p, t)
  {
    hide CyclicMatch;
    var s := TextOf(tokens);
    MatchIsSubstring(s, t, Shifted(p));
    if t + |p| <= |tokens| {
      assert s[t..t + |p|] == Shifted(tokens[t..t + |p|]);
      ShiftedInjective(tokens[t..t + |p|], p);
    }
  }

  lemma ShiftedInjective(a: seq<int>, b: seq<int>)
    ensures Shifted(a) == Shifted(b) <==> a == b
  {
    if Shifted(a) == Shifted(b) {
      assert |a| == |b|;
      forall i | 0 <= i < |a|
        ensures a[i] == b[i]
      {
        assert Shifted(a)[i] == Shifted(b)[i];
      }
    }
  }

  lemma OccurrenceSymbol(tokens: seq<int>, p: seq<int>, i: int, k: nat)
    requires OccursAt(tokens, p, i) && k < |p|
    ensures tokens[i + k] == p[k]
  {
    assert tokens[i..i + |p|][k] == tokens[i + k];
  }

  lemma NoTerminatorInStream(tokens: seq<int>, p: seq<int>, i: int)
    requires (forall j :: 0 <= j < |tokens| ==> tokens[j] >= 0) && -1 in p
    ensures !OccursAt(tokens, p, i)
  {
    var k :| 0 <= k < |p| && p[k] == -1;
    if OccursAt(tokens, p, i) {
      OccurrenceSymbol(tokens, p, i, k);
    }
  }

  /** The positions located for the rows of a pattern are distinct, and are the cyclic readings. */
  lemma LocatedPositions(s: seq<int>, sa: seq<nat>, pat: seq<int>, lo: nat, hi: nat, got: seq<int>)
    requires IsSuffixArray(s, sa) && RowsOf(s, sa, pat, lo, hi)
    requires |got| == hi - lo && forall r :: 0 <= r < |got| ==> got[r] == sa[lo + r]
    ensures Distinct(got)
    ensures forall x :: x in got <==> 0 <= x < |s| && CyclicMatch(s, x, pat)
  {
    hide SuffixLess, CyclicMatch;
    forall x
      ensures x in got <==> 0 <= x < |s| && CyclicMatch(s, x, pat)
    {
      if 0 <= x < |s| {
        var r := Permutations.Surjective(sa, x);
        if CyclicMatch(s, x, pat) {
          assert got[r - lo] == x;
        }
      }
    }
  }

  /** What the count and locate answers say about one pattern. */
  lemma AnswersAgree(tokens: seq<int>, p: seq<int>, got: seq<int>, sorted: seq<int>, gt: seq<int>)
    requires forall i :: 0 <= i < |tokens| ==> tokens[i] >= 0
    requires Distinct(got) && forall x :: x in got <==> 0 <= x <= |tokens| && CyclicMatch(TextOf(tokens), x, Shifted(p))
    requires multiset(sorted) == multiset(got) && forall i, j :: 0 <= i < j < |sorted| ==> sorted[i] <= sorted[j]
    requires AllOccurrences(tokens, p, gt)
    ensures |got| == |sorted|
    ensures p != [] && (-1 !in p || !ReadCyclically(tokens, p)) ==> sorted == gt
    ensures p == [] || (-1 in p && ReadCyclically(tokens, p)) ==> |got| > 0 == |gt|
  {
    hide CyclicMatch;
    assert |multiset(sorted)| == |multiset(got)|;
    SortedDistinct(got, sorted);
    if p == [] {
      EmptyMatch(tokens);
      assert 0 in got;
      FirstIsMember(gt);
    } else if -1 in p {
      forall i
        ensures i !in gt
      {
        NoTerminatorInStream(tokens, p, i);
      }
      FirstIsMember(gt);
      if ReadCyclically(tokens, p) {
        var t :| 0 <= t <= |tokens| && CyclicMatch(TextOf(tokens), t, Shifted(p));
        assert t in got;
      } else {
        FirstIsMember(sorted);
      }
    } else {
      forall x
        ensures x in sorted <==> x in gt
      {
        if 0 <= x <= |tokens| {
          ShiftedMatch(tokens, p, x);
        }
      }
      IncreasingUnique(sorted, gt);
    }
  }

  /** The stream [0] does not hold the pattern [-1], but its text, [1, 0], reads it at position 1. */
  lemma TerminatorRead()
    ensures !Answerable([0], [-1]) && CyclicMatch(TextOf([0]), 1, Shifted([-1])) && !OccursAt([0], [-1], 0)
  {
    assert CyclicMatch(TextOf([0]), 1, Shifted([-1]));
    assert -1 in [-1];
    assert [0][0..1][0] != [-1][0];
  }

  lemma EmptyMatch(tokens: seq<int>)
    ensures CyclicMatch(TextOf(tokens), 0, Shifted([]))
  {
  }

  /** Every pattern the program makes up: non-empty, and without -1 or at least not read across the end. */
  ghost predicate Answerable(tokens: seq<int>, p: seq<int>) {
    p != [] && (-1 !in p || !ReadCyclically(tokens, p))
  }

  /** Count and locate against the ground truth.  They agree for every non-empty pattern over the
      original alphabet; the exact exceptions are the empty pattern and a pattern that holds -1, which
      shifts onto the terminator, when the text reads it cyclically. */
  method CheckPattern(w: RrrWavelet, fm: FmOracle, tokens: seq<int>, ghost sa: seq<nat>, p: seq<int>)
    returns (ok: bool, gt: seq<int>)
    requires forall i :: 0 <= i < |tokens| ==> tokens[i] >= 0
    requires Indexes(w, fm, TextOf(tokens), sa)
    ensures AllOccurrences(tokens, p, gt)
    ensures ok <==> Answerable(tokens, p)
  {
    hide Holds, SuffixLess, Bwt, AllOccurrences, Distinct, ReadCyclically, CyclicMatch, Shifted, TextOf;
    ok := true;
    var flat := Shifted(p);
    gt := NaivePositions(tokens, p);
    var lo, hi := Backward(w, fm, TextOf(tokens), sa, flat);
    if hi - lo != |gt| {
      ok := false;
    }
    var got: seq<int> := [];
    for r := lo to hi
      invariant |got| == r - lo
      invariant forall i :: 0 <= i < |got| ==> got[i] == sa[lo + i]
    {
      var pos, steps := LocateOne(w, fm, TextOf(tokens), sa, r);
      got := got + [pos];
    }
    LocatedPositions(TextOf(tokens), sa, flat, lo, hi, got);
    var sorted := SortValues(got);
    AnswersAgree(tokens, p, got, sorted, gt);
    if sorted != gt {
      ok := false;
    }
  }

  /** The program's own verdict, for every stream, sampling step, probe and pattern list: the self-check
      of access always passes, and that of count and locate passes exactly when every pattern is answerable,
      as every non-empty pattern over the alphabet is. */
  method BuildAndCheck(tokens: seq<int>, saSample: nat, positions: seq<nat>, patterns: seq<seq<int>>)
    returns (selfOk: bool, fmOk: bool)
    requires Fits(tokens) && saSample > 0
    requires forall i :: 0 <= i < |positions| ==> positions[i] <= |tokens|
    ensures selfOk
    ensures fmOk <==> forall i :: 0 <= i < |patterns| ==> Answerable(tokens, patterns[i])
  {
    hide Holds, SuffixLess, Bwt, Answerable, AllOccurrences;
    var w, fm, bwt, sa := BuildIndex(tokens, saSample);
    selfOk := CheckAccess(w, bwt, positions);
    fmOk := true;
    for i := 0 to |patterns|
      invariant fmOk <==> forall j :: 0 <= j < i ==> Answerable(tokens, patterns[j])
    {
      var ok, gt := CheckPattern(w, fm, tokens, sa, patterns[i]);
      if !ok {
        fmOk := false;
      }
    }
  }
}
