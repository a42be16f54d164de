/** Online softmax over exact reals: the direct softmax-weighted mean, the running accumulation with a
    moving maximum, and the merge of two accumulations. */
module Softmax {
  import opened Sequences

  // ---- the exponential ------------------------------------------------------------------------

  ghost predicate SumLaw(f: real -> real, x: real, y: real) {
    f(x + y) == f(x) * f(y)
  }

  ghost predicate Exponential(f: real -> real) {
    && f(0.0) == 1.0
    && (forall x :: f(x) > 0.0)
    && (forall x, y :: SumLaw(f, x, y))
  }

  /** Any function with the laws of the exponential. */
  type Exp = f: real -> real | Exponential(f) ghost witness ConstantOne()

  ghost function ConstantOne(): (f: real -> real)
    ensures Exponential(f)
  {
    x => 1.0
  }

  lemma ExpShift(exp: Exp, s: real, m: real, m2: real)
    ensures exp(s - m2) == exp(s - m) * exp(m - m2)
  {
    assert SumLaw(exp, s - m, m - m2);
    assert s - m + (m - m2) == s - m2;
  }

  // ---- the direct definition ------------------------------------------------------------------

  datatype Token = Token(score: real, value: seq<real>)

  ghost predicate Dimensioned(h: seq<Token>, dim: nat) {
    forall i :: 0 <= i < |h| ==> |h[i].value| == dim
  }

  /** The sum of exp(score - m). */
  function Mass(exp: Exp, h: seq<Token>, m: real): real {
    if h == [] then 0.0 else Mass(exp, h[..|h| - 1], m) + exp(h[|h| - 1].score - m)
  }

  /** The sum of exp(score - m) times component d of the value. */
  function Pull(exp: Exp, h: seq<Token>, m: real, d: nat): real
    requires forall i :: 0 <= i < |h| ==> d < |h[i].value|
  {
    if h == [] then 0.0
    else Pull(exp, h[..|h| - 1], m, d) + exp(h[|h| - 1].score - m) * h[|h| - 1].value[d]
  }

  /** The softmax-weighted mean of component d, with no maximum subtracted. */
  function Mean(exp: Exp, h: seq<Token>, d: nat): real
    requires h != [] && forall i :: 0 <= i < |h| ==> d < |h[i].value|
  {
    MassPositive(exp, h, 0.0);
    Pull(exp, h, 0.0, d) / Mass(exp, h, 0.0)
  }

  lemma {:induction false} MassPositive(exp: Exp, h: seq<Token>, m: real)
    ensures h == [] ==> Mass(exp, h, m) == 0.0
    ensures h != [] ==> Mass(exp, h, m) > 0.0
  {
    if h != [] {
      MassPositive(exp, h[..|h| - 1], m);
      assert exp(h[|h| - 1].score - m) > 0.0;
    }
  }

  lemma {:induction false} MassAppend(exp: Exp, a: seq<Token>, b: seq<Token>, m: real)
    ensures Mass(exp, a + b, m) == Mass(exp, a, m) + Mass(exp, b, m)
  {
    if b == [] {
      assert a + b == a;
    } else {
      assert (a + b)[..|a + b| - 1] == a + b[..|b| - 1];
      MassAppend(exp, a, b[..|b| - 1], m);
    }
  }

  lemma {:induction false} PullAppend(exp: Exp, a: seq<Token>, b: seq<Token>, m: real, d: nat)
    requires forall i :: 0 <= i < |a| ==> d < |a[i].value|
    requires forall i :: 0 <= i < |b| ==> d < |b[i].value|
    ensures Pull(exp, a + b, m, d) == Pull(exp, a, m, d) + Pull(exp, b, m, d)
  {
    if b == [] {
      assert a + b == a;
    } else {
      assert (a + b)[..|a + b| - 1] == a + b[..|b| - 1];
      PullAppend(exp, a, b[..|b| - 1], m, d);
    }
  }

  lemma SumsNext(exp: Exp, h: seq<Token>, t: Token, m: real, d: nat)
    requires d < |t.value| && forall i :: 0 <= i < |h| ==> d < |h[i].value|
    ensures Mass(exp, h + [t], m) == Mass(exp, h, m) + exp(t.score - m)
    ensures Pull(exp, h + [t], m, d) == Pull(exp, h, m, d) + exp(t.score - m) * t.value[d]
  {
    hide Exponential;
    assert (h + [t])[..|h|] == h;
  }

  /** Another maximum scales both sums by the same factor. */
  lemma {:induction false} MassRescale(exp: Exp, h: seq<Token>, m: real, m2: real)
    ensures Mass(exp, h, m2) == Mass(exp, h, m) * exp(m - m2)
  {
    if h != [] {
      MassRescale(exp, h[..|h| - 1], m, m2);
      ExpShift(exp, h[|h| - 1].score, m, m2);
    }
  }

  lemma {:induction false} PullRescale(exp: Exp, h: seq<Token>, m: real, m2: real, d: nat)
    requires forall i :: 0 <= i < |h| ==> d < |h[i].value|
    ensures Pull(exp, h, m2, d) == Pull(exp, h, m, d) * exp(m - m2)
  {
    if h != [] {
      var init, last := h[..|h| - 1], h[|h| - 1];
      PullRescale(exp, init, m, m2, d);
      ExpShift(exp, last.score, m, m2);
      Distribute(Pull(exp, init, m, d), exp(last.score - m), last.value[d], exp(m - m2));
    }
  }

  lemma Distribute(p: real, e: real, v: real, f: real)
    ensures p * f + (e * f) * v == (p + e * v) * f
  {
  }

  /** Two lists of the same tokens, in any order, have the same sums. */
  lemma {:induction false} OrderIrrelevant(exp: Exp, a: seq<Token>, b: seq<Token>, m: real, d: nat)
    requires multiset(a) == multiset(b)
    requires forall i :: 0 <= i < |a| ==> d < |a[i].value|
    requires forall i :: 0 <= i < |b| ==> d < |b[i].value|
    ensures Mass(exp, a, m) == Mass(exp, b, m) && Pull(exp, a, m, d) == Pull(exp, b, m, d)
  {
    hide Mass, Pull, Exponential;
    if a == [] {
      SameLength(a, b);
    } else {
      var n := |a| - 1;
      var k := Counterpart(a, b);
      OrderIrrelevant(exp, a[..n], b[..k] + b[k + 1..], m, d);
      TakeOut(exp, b, k, m, d);
      TakeOut(exp, a, n, m, d);
      assert a[..n] + a[n + 1..] == a[..n];
    }
  }

  lemma TakeOut(exp: Exp, b: seq<Token>, k: nat, m: real, d: nat)
    requires k < |b| && forall i :: 0 <= i < |b| ==> d < |b[i].value|
    ensures var rest := b[..k] + b[k + 1..];
            && Mass(exp, b, m) == Mass(exp, rest, m) + exp(b[k].score - m)
            && Pull(exp, b, m, d) == Pull(exp, rest, m, d) + exp(b[k].score - m) * b[k].value[d]
  {
    hide Exponential, Mass, Pull;
    var front, back := b[..k], b[k + 1..];
    assert b == front + [b[k]] + back;
    MassAppend(exp, front + [b[k]], back, m);
    MassAppend(exp, front, [b[k]], m);
    MassAppend(exp, front, back, m);
    PullAppend(exp, front + [b[k]], back, m, d);
    PullAppend(exp, front, [b[k]], m, d);
    PullAppend(exp, front, back, m, d);
    SingleToken(exp, b[k], m, d);
  }

  lemma SingleToken(exp: Exp, t: Token, m: real, d: nat)
    requires d < |t.value|
    ensures Mass(exp, [t], m) == exp(t.score - m) && Pull(exp, [t], m, d) == exp(t.score - m) * t.value[d]
  {
    assert [t][..0] == [];
  }

  // ---- the running state ----------------------------------------------------------------------

  /** A started flag, the maximum so far, and both sums relative to it. */
  datatype Acc = Acc(started: bool, top: real, sum: real, weighted: seq<real>)

  function Empty(dim: nat): Acc {
    Acc(false, 0.0, 0.0, seq(dim, i => 0.0))
  }

  function MaxReal(a: real, b: real): real {
    if b > a then b else a
  }

  /** x * a + y * b, component by component. */
  function Blended(x: seq<real>, a: real, y: seq<real>, b: real): (r: seq<real>)
    requires |x| == |y|
    ensures |r| == |x| && forall d :: 0 <= d < |x| ==> r[d] == x[d] * a + y[d] * b
  {
    seq(|x|, d requires 0 <= d < |x| => x[d] * a + y[d] * b)
  }

  function Add(exp: Exp, a: Acc, score: real, value: seq<real>): (r: Acc)
    requires |value| == |a.weighted|
    ensures r.started && |r.weighted| == |a.weighted|
  {
    if !a.started then Acc(true, score, 1.0, value)
    else
      var top := MaxReal(a.top, score);
      var oldScale, newScale := exp(a.top - top), exp(score - top);
      Acc(true, top, a.sum * oldScale + newScale,
          Blended(a.weighted, oldScale, value, newScale))
  }

  function Merge(exp: Exp, a: Acc, b: Acc): (r: Acc)
    requires |a.weighted| == |b.weighted|
    ensures |r.weighted| == |a.weighted| && r.started == (a.started || b.started)
  {
    if !b.started then a
    else if !a.started then b
    else
      var top := MaxReal(a.top, b.top);
      var aScale, bScale := exp(a.top - top), exp(b.top - top);
      Acc(true, top, a.sum * aScale + b.sum * bScale,
          Blended(a.weighted, aScale, b.weighted, bScale))
  }

  /** The state holds the sums of exactly these tokens, relative to the greatest score among them. */
  ghost predicate Sums(exp: Exp, a: Acc, h: seq<Token>) {
    && Dimensioned(h, |a.weighted|)
    && (a.started <==> h != [])
    && (a.started ==>
          && (forall i :: 0 <= i < |h| ==> h[i].score <= a.top)
          && (exists i :: 0 <= i < |h| && h[i].score == a.top)
          && a.sum == Mass(exp, h, a.top)
          && (forall d :: 0 <= d < |a.weighted| ==> a.weighted[d] == Pull(exp, h, a.top, d)))
  }

  lemma EmptySums(exp: Exp, dim: nat)
    ensures Sums(exp, Empty(dim), [])
  {
  }

  /** Merging states is concatenating what they saw; a state that saw nothing is neutral. */
  lemma MergeSums(exp: Exp, a: Acc, b: Acc, h: seq<Token>, g: seq<Token>)
    requires |a.weighted| == |b.weighted| && Sums(exp, a, h) && Sums(exp, b, g)
    ensures Sums(exp, Merge(exp, a, b), h + g)
  {
    if !b.started {
      assert h + g == h;
    } else if !a.started {
      assert h + g == g;
    } else {
      MergeStarted(exp, a, b, h, g);
    }
  }

  lemma MergeStarted(exp: Exp, a: Acc, b: Acc, h: seq<Token>, g: seq<Token>)
    requires |a.weighted| == |b.weighted| && Sums(exp, a, h) && Sums(exp, b, g) && a.started && b.started
    ensures Sums(exp, Merge(exp, a, b), h + g)
  {
    hide Exponential, Mass, Pull, MaxReal;
    var r := Merge(exp, a, b);
    TopOf(h, g, a.top, b.top);
    MergedMass(exp, h, g, a.top, b.top, r.top);
    forall d | 0 <= d < |r.weighted|
      ensures r.weighted[d] == Pull(exp, h + g, r.top, d)
    {
      MergedPull(exp, h, g, a.top, b.top, r.top, d);
    }
  }

  lemma TopOf(h: seq<Token>, g: seq<Token>, m: real, n: real)
    requires forall i :: 0 <= i < |h| ==> h[i].score <= m
    requires forall i :: 0 <= i < |g| ==> g[i].score <= n
    requires exists i :: 0 <= i < |h| && h[i].score == m
    requires exists i :: 0 <= i < |g| && g[i].score == n
    ensures forall i :: 0 <= i < |h + g| ==> (h + g)[i].score <= MaxReal(m, n)
    ensures exists i :: 0 <= i < |h + g| && (h + g)[i].score == MaxReal(m, n)
  {
    var i :| 0 <= i < |h| && h[i].score == m;
    var j :| 0 <= j < |g| && g[j].score == n;
    assert (h + g)[i].score == m && (h + g)[|h| + j].score == n;
  }

  lemma MergedMass(exp: Exp, h: seq<Token>, g: seq<Token>, m: real, n: real, top: real)
    ensures Mass(exp, h + g, top) == Mass(exp, h, m) * exp(m - top) + Mass(exp, g, n) * exp(n - top)
  {
    MassAppend(exp, h, g, top);
    MassRescale(exp, h, m, top);
    MassRescale(exp, g, n, top);
  }

  lemma MergedPull(exp: Exp, h: seq<Token>, g: seq<Token>, m: real, n: real, top: real, d: nat)
    requires forall i :: 0 <= i < |h| ==> d < |h[i].value|
    requires forall i :: 0 <= i < |g| ==> d < |g[i].value|
    ensures Pull(exp, h + g, top, d) == Pull(exp, h, m, d) * exp(m - top) + Pull(exp, g, n, d) * exp(n - top)
  {
    PullAppend(exp, h, g, top, d);
    PullRescale(exp, h, m, top, d);
    PullRescale(exp, g, n, top, d);
  }

  /** One token as a state of its own. */
  lemma SingleSums(exp: Exp, score: real, value: seq<real>)
    ensures Sums(exp, Acc(true, score, 1.0, value), [Token(score, value)])
  {
    var h := [Token(score, value)];
    assert exp(score - score) == 1.0;
    forall d | 0 <= d < |value|
      ensures value[d] == Pull(exp, h, score, d)
    {
      SingleToken(exp, h[0], score, d);
    }
    assert h[..0] == [];
    assert h[0].score == score;
  }

  /** Accumulating a token is merging it as a state of its own. */
  lemma AddIsMerge(exp: Exp, a: Acc, score: real, value: seq<real>)
    requires |value| == |a.weighted|
    ensures Add(exp, a, score, value) == Merge(exp, a, Acc(true, score, 1.0, value))
  {
    if a.started {
      var r, s := Add(exp, a, score, value), Merge(exp, a, Acc(true, score, 1.0, value));
      assert r.weighted == s.weighted;
    }
  }

  lemma AddSums(exp: Exp, a: Acc, h: seq<Token>, score: real, value: seq<real>)
    requires |value| == |a.weighted| && Sums(exp, a, h)
    ensures Sums(exp, Add(exp, a, score, value), h + [Token(score, value)])
  {
    hide Sums;
    AddIsMerge(exp, a, score, value);
    SingleSums(exp, score, value);
    MergeSums(exp, a, Acc(true, score, 1.0, value), h, [Token(score, value)]);
  }

  /** The quotient of the two sums is the mean: the running maximum never shows. */
  lemma FinalMean(exp: Exp, a: Acc, h: seq<Token>, d: nat)
    requires Sums(exp, a, h) && a.started && d < |a.weighted|
    ensures a.sum > 0.0 && a.weighted[d] / a.sum == Mean(exp, h, d)
  {
    MassPositive(exp, h, a.top);
    MassPositive(exp, h, 0.0);
    MassRescale(exp, h, 0.0, a.top);
    PullRescale(exp, h, 0.0, a.top, d);
    assert exp(0.0 - a.top) > 0.0;
    QuotientScale(Pull(exp, h, 0.0, d), Mass(exp, h, 0.0), exp(0.0 - a.top));
  }

  lemma QuotientScale(p: real, q: real, f: real)
    requires q > 0.0 && f > 0.0
    ensures q * f > 0.0 && (p * f) / (q * f) == p / q
  {
    var x := p / q;
    assert x * q == p;
    assert x * (q * f) == p * f;
  }

  // ---- splitting ------------------------------------------------------------------------------

  /** A way to split a token list: accumulate a part, or merge two split parts. */
  datatype Split = Part(tokens: seq<Token>) | Join(left: Split, right: Split)

  function Flatten(p: Split): seq<Token> {
    match p
    case Part(tokens) => tokens
    case Join(l, r) => Flatten(l) + Flatten(r)
  }

  function AddAll(exp: Exp, dim: nat, h: seq<Token>): (a: Acc)
    requires Dimensioned(h, dim)
    ensures |a.weighted| == dim
  {
    if h == [] then Empty(dim)
    else Add(exp, AddAll(exp, dim, h[..|h| - 1]), h[|h| - 1].score, h[|h| - 1].value)
  }

  lemma DimensionedParts(a: seq<Token>, b: seq<Token>, dim: nat)
    ensures Dimensioned(a + b, dim) <==> Dimensioned(a, dim) && Dimensioned(b, dim)
  {
    if Dimensioned(a + b, dim) {
      assert forall i :: 0 <= i < |a| ==> a[i] == (a + b)[i];
      assert forall i :: 0 <= i < |b| ==> b[i] == (a + b)[|a| + i];
    }
  }

  function Run(exp: Exp, dim: nat, p: Split): (a: Acc)
    requires Dimensioned(Flatten(p), dim)
    ensures |a.weighted| == dim
  {
    match p
    case Part(tokens) => AddAll(exp, dim, tokens)
    case Join(l, r) =>
      DimensionedParts(Flatten(l), Flatten(r), dim);
      Merge(exp, Run(exp, dim, l), Run(exp, dim, r))
  }

  lemma {:induction false} AddAllSums(exp: Exp, dim: nat, h: seq<Token>)
    requires Dimensioned(h, dim)
    ensures Sums(exp, AddAll(exp, dim, h), h)
  {
    hide Sums, Exponential;
    if h == [] {
      EmptySums(exp, dim);
    } else {
      AddAllSums(exp, dim, h[..|h| - 1]);
      AddSums(exp, AddAll(exp, dim, h[..|h| - 1]), h[..|h| - 1], h[|h| - 1].score, h[|h| - 1].value);
      assert h == h[..|h| - 1] + [Token(h[|h| - 1].score, h[|h| - 1].value)];
    }
  }

  lemma {:induction false} RunSums(exp: Exp, dim: nat, p: Split)
    requires Dimensioned(Flatten(p), dim)
    ensures Sums(exp, Run(exp, dim, p), Flatten(p))
  {
    hide Sums, Exponential;
    match p
    case Part(tokens) =>
      AddAllSums(exp, dim, tokens);
    case Join(l, r) =>
      DimensionedParts(Flatten(l), Flatten(r), dim);
      RunSums(exp, dim, l);
      RunSums(exp, dim, r);
      MergeSums(exp, Run(exp, dim, l), Run(exp, dim, r), Flatten(l), Flatten(r));
  }

  /** However a list is split and in whatever order its parts come, the finalised value is the direct
      softmax-weighted mean of the whole. */
  lemma SplitIrrelevant(exp: Exp, dim: nat, p: Split, h: seq<Token>, d: nat)
    requires Dimensioned(Flatten(p), dim) && Dimensioned(h, dim) && d < dim
    requires multiset(Flatten(p)) == multiset(h) && h != []
    ensures var a := Run(exp, dim, p);
            a.started && a.sum > 0.0 && a.weighted[d] / a.sum == Mean(exp, h, d)
  {
    hide Exponential, Mass, Pull;
    RunSums(exp, dim, p);
    SameLength(Flatten(p), h);
    FinalMean(exp, Run(exp, dim, p), Flatten(p), d);
    OrderIrrelevant(exp, Flatten(p), h, 0.0, d);
  }
}
