/** The enumerative code of a 15-bit block: its class is the number of ones, its offset the sum of
    C(position of the j-th one, j).  Encoding and greedy decoding are each other's inverses. */
module Enumerative {
  import opened Bits

  const T: nat := 15

  /** C(n, k), with the zero entries above the diagonal. */
  function Binom(n: nat, k: nat): nat {
    if k == 0 then 1
    else if n == 0 then 0
    else Binom(n - 1, k - 1) + Binom(n - 1, k)
  }

  /** The width in bits of the offsets of class k: the least w with C(15, k) <= 2^w. */
  function Width(k: nat): (w: nat)
    ensures Binom(T, k) <= Pow2(w)
    ensures w > 0 ==> Pow2(w - 1) < Binom(T, k)
    ensures w <= T
  {
    BinomBound(T, k);
    LeastWidth(Binom(T, k), T)
  }

  function LeastWidth(c: nat, most: nat): (w: nat)
    requires c <= Pow2(most)
    ensures c <= Pow2(w) && (w > 0 ==> Pow2(w - 1) < c) && w <= most
  {
    if most == 0 || c > Pow2(most - 1) then most else LeastWidth(c, most - 1)
  }

  lemma {:induction false} BinomBound(n: nat, k: nat)
    ensures Binom(n, k) <= Pow2(n)
  {
    if n > 0 {
      if k > 0 {
        BinomBound(n - 1, k - 1);
        BinomBound(n - 1, k);
      } else {
        PowMonotone(0, n);
      }
    }
  }

  lemma {:induction false} BinomAbove(n: nat, k: nat)
    requires k > n
    ensures Binom(n, k) == 0
  {
    if n > 0 {
      BinomAbove(n - 1, k - 1);
      BinomAbove(n - 1, k);
    }
  }

  lemma {:induction false} BinomMonotone(m: nat, n: nat, k: nat)
    requires m <= n
    ensures Binom(m, k) <= Binom(n, k)
    decreases n
  {
    if m < n && k > 0 {
      BinomMonotone(m, n - 1, k);
    }
  }

  ghost predicate RowDone(binom: array2<nat>, n: nat)
    requires n < 16 <= binom.Length0 && binom.Length1 == 16
    reads binom
  {
    forall k :: 0 <= k < 16 ==> binom[n, k] == Binom(n, k)
  }

  /** One row of Pascal's triangle, from the row above, on zero-initialised storage. */
  method FillRow(binom: array2<nat>, n: nat)
    requires n < 16 == binom.Length0 && binom.Length1 == 16
    requires n > 0 ==> RowDone(binom, n - 1)
    requires forall k :: 0 <= k < 16 ==> binom[n, k] == 0
    modifies binom
    ensures RowDone(binom, n)
    ensures forall i, k :: 0 <= i < 16 && 0 <= k < 16 && i != n ==> binom[i, k] == old(binom[i, k])
  {
    binom[n, 0] := 1;
    for k := 1 to n + 1
      invariant n > 0 ==> RowDone(binom, n - 1)
      invariant forall j :: 0 <= j < k ==> binom[n, j] == Binom(n, j)
      invariant forall j :: k <= j < 16 ==> binom[n, j] == 0
      invariant forall i, j :: 0 <= i < 16 && 0 <= j < 16 && i != n ==> binom[i, j] == old(binom[i, j])
    {
      binom[n, k] := binom[n - 1, k - 1] + binom[n - 1, k];
    }
    forall k | n < k < 16
      ensures Binom(n, k) == 0
    {
      BinomAbove(n, k);
    }
  }

  /** The least width that holds c values, by counting up. */
  method WidthFor(k: nat) returns (width: nat)
    ensures width == Width(k)
  {
    var c := Binom(T, k);
    var w: nat := 0;
    while Pow2(w) < c
      invariant w > 0 ==> Pow2(w - 1) < c
      invariant w <= T
      decreases T - w
    {
      BinomBound(T, k);
      w := w + 1;
    }
    LeastWidthUnique(c, w, Width(k));
    width := if c > 1 then w else 0;
  }

  /** The tables as the program fills them hold exactly the binomials and the widths. */
  method InitTables() returns (binom: array2<nat>, width: array<nat>)
    ensures binom.Length0 == 16 && binom.Length1 == 16
    ensures forall n :: 0 <= n < 16 ==> RowDone(binom, n)
    ensures width.Length == 16
    ensures forall k :: 0 <= k < 16 ==> width[k] == Width(k)
  {
    binom := new nat[16, 16]((i, j) => 0);
    for n := 0 to 16
      invariant forall i :: 0 <= i < n ==> RowDone(binom, i)
      invariant forall i, k :: n <= i < 16 && 0 <= k < 16 ==> binom[i, k] == 0
    {
      label before:
      FillRow(binom, n);
      forall i | 0 <= i < n
        ensures RowDone(binom, i)
      {
        assert old@before(RowDone(binom, i));
      }
    }
    width := new nat[16](i => 0);
    for k := 0 to 16
      invariant forall n :: 0 <= n < 16 ==> RowDone(binom, n)
      invariant forall j :: 0 <= j < k ==> width[j] == Width(j)
    {
      assert RowDone(binom, T);
      width[k] := WidthFor(k);
    }
  }

  lemma LeastWidthUnique(c: nat, w: nat, x: nat)
    requires c <= Pow2(w) && (w > 0 ==> Pow2(w - 1) < c)
    requires c <= Pow2(x) && (x > 0 ==> Pow2(x - 1) < c)
    ensures w == x
  {
    if w < x {
      PowMonotone(w, x - 1);
    } else if x < w {
      PowMonotone(x, w - 1);
    }
  }

  /** The offset of a block within its class. */
  function Offset(bs: seq<bool>): nat {
    if bs == [] then 0
    else Offset(bs[..|bs| - 1]) + (if bs[|bs| - 1] then Binom(|bs| - 1, Count(bs)) else 0)
  }

  /** Every offset is below the size of its class, so it fits the width kept for that class. */
  lemma {:induction false} OffsetBound(bs: seq<bool>)
    ensures Offset(bs) < Binom(|bs|, Count(bs))
  {
    if bs != [] {
      var init := bs[..|bs| - 1];
      OffsetBound(init);
      BinomMonotone(|init|, |bs|, Count(init));
    }
  }

  /** Blocks of one length and class with equal offsets are equal. */
  lemma {:induction false} OffsetInjective(a: seq<bool>, b: seq<bool>)
    requires |a| == |b| && Count(a) == Count(b) && Offset(a) == Offset(b)
    ensures a == b
  {
    if a != [] {
      var n := |a| - 1;
      OffsetBound(a[..n]);
      OffsetBound(b[..n]);
      if a[n] != b[n] {
        assert false;
      }
      OffsetInjective(a[..n], b[..n]);
      assert a == a[..n] + [a[n]] && b == b[..n] + [b[n]];
    }
  }

  /** The most significant bit of a number. */
  lemma {:induction false} TopBit(bs: seq<bool>)
    requires bs != []
    ensures ToNat(bs) == ToNat(bs[..|bs| - 1]) + (if bs[|bs| - 1] then Pow2(|bs| - 1) else 0)
    decreases |bs|
  {
    if |bs| > 1 {
      TopBit(bs[1..]);
      assert bs[1..][..|bs| - 2] == bs[..|bs| - 1][1..];
    } else {
      assert bs[1..] == [] && bs[..0] == [];
    }
  }

  /** Main result: within a class the offsets are in the order of the blocks as numbers, so an offset says how many
      blocks of its class come before. */
  lemma {:induction false} OffsetOrders(a: seq<bool>, b: seq<bool>)
    requires |a| == |b| && Count(a) == Count(b)
    ensures Offset(a) < Offset(b) <==> ToNat(a) < ToNat(b)
  {
    hide Binom, Pow2;
    if a != [] {
      var n := |a| - 1;
      TopBit(a);
      TopBit(b);
      OffsetBound(a[..n]);
      OffsetBound(b[..n]);
      if a[n] == b[n] {
        OffsetOrders(a[..n], b[..n]);
      }
    }
  }

  /** What the bits at positions m and above contribute when i ones lie below m. */
  function Upper(bs: seq<bool>, m: nat, i: nat): nat
    requires m <= |bs|
    decreases |bs| - m
  {
    if m == |bs| then 0
    else if bs[m] then Binom(m, i + 1) + Upper(bs, m + 1, i + 1)
    else Upper(bs, m + 1, i)
  }

  lemma {:induction false} UpperIsOffset(bs: seq<bool>, m: nat)
    requires m <= |bs|
    ensures Offset(bs[..m]) + Upper(bs, m, Count(bs[..m])) == Offset(bs)
    decreases |bs| - m
  {
    if m == |bs| {
      assert bs[..m] == bs;
    } else {
      UpperIsOffset(bs, m + 1);
      assert bs[..m + 1][..m] == bs[..m];
    }
  }

  lemma {:induction false} UpperUnchanged(a: seq<bool>, b: seq<bool>, m: nat, i: nat)
    requires |a| == |b| && m <= |a|
    requires forall j :: m <= j < |a| ==> a[j] == b[j]
    ensures Upper(a, m, i) == Upper(b, m, i)
    decreases |a| - m
  {
    if m < |a| {
      UpperUnchanged(a, b, m + 1, if a[m] then i + 1 else i);
    }
  }

  lemma {:induction false} UpperSkip(bs: seq<bool>, lo: nat, m: nat, i: nat)
    requires lo <= m <= |bs|
    requires forall j :: lo <= j < m ==> !bs[j]
    ensures Upper(bs, lo, i) == Upper(bs, m, i)
    decreases m - lo
  {
    if lo < m {
      UpperSkip(bs, lo + 1, m, i);
    }
  }

  /** The decoder has placed all ones from position m up; i ones worth r remain below m. */
  ghost predicate Decoding(word: Word, cl: nat, off: nat, m: nat, i: nat, r: nat) {
    && m <= T && i <= cl
    && r < Binom(m, i)
    && (forall j :: 0 <= j < m || T <= j < 32 ==> !word[j])
    && Count(word[m..T]) == cl - i
    && off == r + Upper(word[..T], m, i)
  }

  lemma DecodeStart(cl: nat, off: nat)
    requires cl <= T && off < Binom(T, cl)
    ensures Decoding(Zeros(32), cl, off, T, cl, off)
  {
    assert Zeros(32)[T..T] == [];
  }

  lemma DecodingBound(word: Word, cl: nat, off: nat, m: nat, i: nat, r: nat)
    requires Decoding(word, cl, off, m, i, r)
    ensures r < Binom(T, i) && i <= T
  {
    BinomMonotone(m, T, i);
    if i > T {
      BinomAbove(T, i);
    }
  }

  /** The word with `1 << c` ored in. */
  function SetBit(word: Word, c: nat): (r: Word)
    requires c < 32
    ensures r == word[c := true]
  {
    Or(word, Shl([true] + Zeros(31), c))
  }

  /** The greedy choice is below m. */
  lemma GreedyBelow(m: nat, c: nat, i: nat, r: nat)
    requires Binom(c, i) <= r < Binom(m, i)
    ensures c < m
  {
    if c >= m {
      BinomMonotone(m, c, i);
    }
  }

  lemma DecodeStep(word: Word, cl: nat, off: nat, m: nat, i: nat, r: nat, c: nat)
    requires Decoding(word, cl, off, m, i, r)
    requires i >= 1 && c < T && Binom(c, i) <= r < Binom(c + 1, i)
    ensures Decoding(word[c := true], cl, off, c, i - 1, r - Binom(c, i))
  {
    GreedyBelow(m, c, i, r);
    var next := word[c := true];
    assert Count(next[c..T]) == cl - i + 1 by {
      assert next[c..T] == [true] + (word[c + 1..m] + word[m..T]);
      CountNone(word[c + 1..m]);
      CountAppend(word[c + 1..m], word[m..T]);
      CountAppend([true], word[c + 1..m] + word[m..T]);
    }
    assert Upper(next[..T], c, i - 1) == Binom(c, i) + Upper(word[..T], m, i) by {
      UpperSkip(word[..T], c + 1, m, i);
      UpperUnchanged(word[..T], next[..T], c + 1, i);
    }
  }

  lemma DecodeEnd(word: Word, cl: nat, off: nat, m: nat, r: nat)
    requires Decoding(word, cl, off, m, 0, r)
    ensures forall j :: T <= j < 32 ==> !word[j]
    ensures Count(word[..T]) == cl && Offset(word[..T]) == off
  {
    CountNone(word[..m]);
    assert word[..T] == word[..m] + word[m..T];
    CountAppend(word[..m], word[m..T]);
    UpperIsOffset(word[..T], 0);
    UpperSkip(word[..T], 0, m, 0);
  }

  /** The largest column whose binomial does not exceed r; the search stops before it leaves the table. */
  method GreedyColumn(i: nat, r: nat) returns (c: nat)
    requires i >= 1 && r < Binom(T, i)
    ensures c < T && Binom(c, i) <= r < Binom(c + 1, i)
  {
    c := T - 1;
    while Binom(c, i) > r
      invariant c < T && r < Binom(c + 1, i)
      decreases c
    {
      c := c - 1;
    }
  }

  /** The greedy decoder.  Its answer is the one block of that class with that offset. */
  method DecodeWord(cl: nat, off: nat) returns (word: Word)
    requires cl <= T && off < Binom(T, cl)
    ensures forall j :: T <= j < 32 ==> !word[j]
    ensures Count(word[..T]) == cl && Offset(word[..T]) == off
  {
    hide Decoding, Count, Offset, Binom, SetBit;
    DecodeStart(cl, off);
    word := Zeros(32);
    var r: nat, i: nat := off, cl;
    ghost var m: nat := T;
    while i >= 1
      invariant Decoding(word, cl, off, m, i, r)
    {
      DecodingBound(word, cl, off, m, i, r);
      var c := GreedyColumn(i, r);
      DecodeStep(word, cl, off, m, i, r, c);
      word := SetBit(word, c);
      r := r - Binom(c, i);
      i := i - 1;
      m := c;
    }
    DecodeEnd(word, cl, off, m, r);
  }

  /** Decoding what was encoded gives the block back. */
  lemma DecodeInvertsEncode(block: seq<bool>, decoded: Word)
    requires |block| == T
    requires Count(decoded[..T]) == Count(block) && Offset(decoded[..T]) == Offset(block)
    ensures decoded[..T] == block
    ensures Offset(block) < Pow2(Width(Count(block)))
  {
    OffsetInjective(decoded[..T], block);
    OffsetBound(block);
  }
}
