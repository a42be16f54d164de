/** Machine words as sequences of bits, least significant bit first.
    The shifts, masks and ors of the index and of the page codecs act on these;
    ToNat and FromNat connect them to numbers (two's complement for negative ones). */
module Bits {

  type Word = bs: seq<bool> | |bs| == 32 witness seq(32, i => false)

  function Min(a: nat, b: nat): nat {
    if a <= b then a else b
  }

  function Pow2(n: nat): (p: nat)
    ensures p >= 1
  {
    if n == 0 then 1 else 2 * Pow2(n - 1)
  }

  /** The value of `x >> k`. */
  function ShiftRight(x: int, k: nat): (y: int)
    ensures x >= 0 ==> 0 <= y <= x
  {
    if k == 0 then x else ShiftRight(x, k - 1) / 2
  }

  /** Truncation to a signed 32-bit integer, wrapping around. */
  function Int32(x: int): (y: int)
    ensures -0x8000_0000 <= y < 0x8000_0000
    ensures -0x8000_0000 <= x < 0x8000_0000 ==> y == x
  {
    (x + 0x8000_0000) % 0x1_0000_0000 - 0x8000_0000
  }

  function ToNat(bs: seq<bool>): (v: nat)
    ensures v < Pow2(|bs|)
  {
    if bs == [] then 0 else (if bs[0] then 1 else 0) + 2 * ToNat(bs[1..])
  }

  /** The low `width` bits of v. */
  function FromNat(v: int, width: nat): (bs: seq<bool>)
    ensures |bs| == width
    decreases width, v
  {
    if width == 0 then [] else [v % 2 == 1] + FromNat(v / 2, width - 1)
  }

  function Zeros(n: nat): (bs: seq<bool>)
    ensures |bs| == n && forall i :: 0 <= i < n ==> !bs[i]
  {
    seq(n, i => false)
  }

  function Or(a: seq<bool>, b: seq<bool>): (c: seq<bool>)
    requires |a| == |b|
    ensures |c| == |a| && forall i :: 0 <= i < |a| ==> c[i] == (a[i] || b[i])
  {
    seq(|a|, i requires 0 <= i < |a| => a[i] || b[i])
  }

  function And(a: seq<bool>, b: seq<bool>): (c: seq<bool>)
    requires |a| == |b|
    ensures |c| == |a| && forall i :: 0 <= i < |a| ==> c[i] == (a[i] && b[i])
  {
    seq(|a|, i requires 0 <= i < |a| => a[i] && b[i])
  }

  function Shl(a: seq<bool>, k: nat): (c: seq<bool>)
    ensures |c| == |a| && forall i :: 0 <= i < |a| ==> c[i] == (k <= i && a[i - k])
  {
    seq(|a|, i requires 0 <= i < |a| => k <= i && a[i - k])
  }

  function Shr(a: seq<bool>, k: nat): (c: seq<bool>)
    ensures |c| == |a| && forall i :: 0 <= i < |a| ==> c[i] == (i + k < |a| && a[i + k])
  {
    seq(|a|, i requires 0 <= i < |a| => i + k < |a| && a[i + k])
  }

  /** The mask `(1 << k) - 1`. */
  function LowMask(width: nat, k: nat): (c: seq<bool>)
    ensures |c| == width && forall i :: 0 <= i < width ==> c[i] == (i < k)
  {
    seq(width, i => i < k)
  }

  /** The number of set bits. */
  function Count(bs: seq<bool>): (n: nat)
    ensures n <= |bs|
  {
    if bs == [] then 0 else Count(bs[..|bs| - 1]) + (if bs[|bs| - 1] then 1 else 0)
  }

  lemma {:induction false} CountAppend(a: seq<bool>, b: seq<bool>)
    ensures Count(a + b) == Count(a) + Count(b)
  {
    if b == [] {
      assert a + b == a;
    } else {
      var b' := b[..|b| - 1];
      assert (a + b)[..|a + b| - 1] == a + b';
      CountAppend(a, b');
    }
  }

  lemma {:induction false} CountNone(a: seq<bool>)
    requires forall i :: 0 <= i < |a| ==> !a[i]
    ensures Count(a) == 0
  {
    if a != [] {
      CountNone(a[..|a| - 1]);
    }
  }

  /** The ones among the low b bits of a word. */
  lemma MaskedCount(word: seq<bool>, b: nat)
    requires b <= |word|
    ensures Count(And(word, LowMask(|word|, b))) == Count(word[..b])
  {
    hide Count;
    assert And(word, LowMask(|word|, b)) == word[..b] + Zeros(|word| - b);
    CountAppend(word[..b], Zeros(|word| - b));
    CountNone(Zeros(|word| - b));
  }

  lemma {:induction false} PowMonotone(m: nat, n: nat)
    requires m <= n
    ensures Pow2(m) <= Pow2(n)
    decreases n
  {
    if m < n {
      PowMonotone(m, n - 1);
    }
  }

  lemma {:induction false} PowAdd(m: nat, n: nat)
    ensures Pow2(m + n) == Pow2(m) * Pow2(n)
  {
    if n > 0 {
      PowAdd(m, n - 1);
      assert Pow2(m + n) == 2 * Pow2(m + (n - 1));
    }
  }

  /** Shifting out all bits of a number that fits leaves nothing. */
  lemma {:induction false} ShiftRightBound(x: nat, bits: nat, k: nat)
    requires x < Pow2(bits) && k <= bits
    ensures ShiftRight(x, k) < Pow2(bits - k)
  {
    if k > 0 {
      ShiftRightBound(x, bits, k - 1);
      assert Pow2(bits - (k - 1)) == 2 * Pow2(bits - k);
    }
  }

  /** Writing a number's low bits and reading them back gives the number modulo the width. */
  lemma {:induction false} FromNatToNat(v: int, width: nat)
    ensures 0 <= v < Pow2(width) ==> ToNat(FromNat(v, width)) == v
    decreases width
  {
    if width > 0 {
      FromNatToNat(v / 2, width - 1);
      assert FromNat(v, width)[1..] == FromNat(v / 2, width - 1);
    }
  }

  /** Bits of a number above its width are clear. */
  lemma {:induction false} FromNatSplit(v: nat, w: nat, wide: nat)
    requires v < Pow2(w) && w <= wide
    ensures FromNat(v, wide) == FromNat(v, w) + Zeros(wide - w)
    decreases wide
  {
    if w == 0 {
      FromNatZero(wide);
      assert v == 0;
    } else {
      FromNatSplit(v / 2, w - 1, wide - 1);
    }
  }

  lemma {:induction false} FromNatZero(wide: nat)
    ensures FromNat(0, wide) == Zeros(wide)
  {
    if wide > 0 {
      FromNatZero(wide - 1);
    }
  }

  /** The low bits of a number do not depend on how many bits are kept. */
  lemma {:induction false} FromNatPrefix(v: int, w: nat, wide: nat)
    requires w <= wide
    ensures FromNat(v, wide)[..w] == FromNat(v, w)
    decreases wide
  {
    if w > 0 {
      FromNatPrefix(v / 2, w - 1, wide - 1);
      assert FromNat(v, wide)[..w] == [v % 2 == 1] + FromNat(v / 2, wide - 1)[..w - 1];
    }
  }

  /** Bit i of a number is the parity of its quotient by two to the i. */
  lemma {:induction false} FromNatDigit(v: nat, w: nat, i: nat)
    requires i < w
    ensures FromNat(v, w)[i] <==> v / Pow2(i) % 2 == 1
    decreases i
  {
    if i > 0 {
      FromNatDigit(v / 2, w - 1, i - 1);
      HalfThenRest(v, Pow2(i - 1));
    }
  }

  lemma HalfThenRest(v: nat, p: nat)
    requires p > 0
    ensures v / 2 / p == v / (2 * p)
  {
    var q, m := v / 2 / p, v / 2 % p;
    assert v / 2 == q * p + m;
    assert v == q * (2 * p) + (2 * m + v % 2);
    var d := v / (2 * p) - q;
    assert d * (2 * p) == 2 * m + v % 2 - v % (2 * p);
    assert d >= 1 ==> d * (2 * p) >= 2 * p;
    assert d <= -1 ==> d * (2 * p) <= -2 * p;
  }

  /** The value of a word whose high bits are clear is the value of its low bits. */
  lemma {:induction false} ToNatPadded(bs: seq<bool>, n: nat)
    ensures ToNat(bs + Zeros(n)) == ToNat(bs)
    decreases |bs|
  {
    if bs == [] {
      assert bs + Zeros(n) == Zeros(n);
      ToNatZeros(n);
    } else {
      ToNatPadded(bs[1..], n);
      assert (bs + Zeros(n))[1..] == bs[1..] + Zeros(n);
    }
  }

  lemma {:induction false} ToNatZeros(n: nat)
    ensures ToNat(Zeros(n)) == 0
  {
    if n > 0 {
      ToNatZeros(n - 1);
      assert Zeros(n)[1..] == Zeros(n - 1);
    }
  }

  // ---- streams of words ------------------------------------------------------------------

  function StreamBit(words: seq<Word>, pos: nat): bool
    requires pos < 32 * |words|
  {
    words[pos / 32][pos % 32]
  }

  /** The w bits of the stream that start at bit pos. */
  function Field(words: seq<Word>, pos: nat, w: nat): (bs: seq<bool>)
    requires pos + w <= 32 * |words|
    ensures |bs| == w && forall i :: 0 <= i < w ==> bs[i] == StreamBit(words, pos + i)
  {
    seq(w, i requires 0 <= i < w => StreamBit(words, pos + i))
  }

  /** Appending words does not disturb earlier fields. */
  lemma FieldInPrefix(a: seq<Word>, b: seq<Word>, pos: nat, w: nat)
    requires pos + w <= 32 * |a|
    ensures Field(a + b, pos, w) == Field(a, pos, w)
  {
  }

  /** A field of the appended words is found behind the earlier words. */
  lemma FieldInSuffix(a: seq<Word>, b: seq<Word>, pos: nat, w: nat)
    requires pos + w <= 32 * |b|
    ensures Field(a + b, 32 * |a| + pos, w) == Field(b, pos, w)
  {
    forall i | 0 <= i < w
      ensures Field(a + b, 32 * |a| + pos, w)[i] == Field(b, pos, w)[i]
    {
      assert (32 * |a| + pos + i) / 32 == |a| + (pos + i) / 32;
    }
  }
}
