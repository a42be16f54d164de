/** The wavelet matrix: one RRR plane per bit of the symbols, most significant first, the symbols
    stably partitioned by that bit from level to level. */
module Wavelet {
  import opened Bits
  import opened Rrr

  // ---- symbols, planes and levels -----------------------------------------------------------

  /** Bit `shift` of x. */
  function BitOf(x: int, shift: nat): bool {
    ShiftRight(x, shift) % 2 == 1
  }

  function Plane(cur: seq<int>, shift: nat): (plane: seq<bool>)
    ensures |plane| == |cur|
  {
    seq(|cur|, i requires 0 <= i < |cur| => BitOf(cur[i], shift))
  }

  /** The symbols whose bit is b, in order. */
  function Select(cur: seq<int>, shift: nat, b: bool): (r: seq<int>)
    ensures |r| <= |cur|
  {
    if cur == [] then []
    else
      var last := cur[|cur| - 1];
      Select(cur[..|cur| - 1], shift, b) + (if BitOf(last, shift) == b then [last] else [])
  }

  function Partition(cur: seq<int>, shift: nat): seq<int> {
    Select(cur, shift, false) + Select(cur, shift, true)
  }

  /** The symbols as they stand at level lvl. */
  function Level(text: seq<int>, bits: nat, lvl: nat): (cur: seq<int>)
    requires lvl <= bits
  {
    if lvl == 0 then text else Partition(Level(text, bits, lvl - 1), bits - lvl)
  }

  function LevelPlane(text: seq<int>, bits: nat, lvl: nat): seq<bool>
    requires lvl < bits
  {
    Plane(Level(text, bits, lvl), bits - 1 - lvl)
  }

  lemma {:induction false} SelectAppend(a: seq<int>, b: seq<int>, shift: nat, v: bool)
    ensures Select(a + b, shift, v) == Select(a, shift, v) + Select(b, shift, v)
  {
    if b == [] {
      assert a + b == a;
    } else {
      var b' := b[..|b| - 1];
      assert (a + b)[..|a + b| - 1] == a + b';
      SelectAppend(a, b', shift, v);
    }
  }

  /** Ones and zeros before a position say how long the two selections of a prefix are. */
  lemma {:induction false} SelectLength(cur: seq<int>, shift: nat)
    ensures |Select(cur, shift, true)| == Count(Plane(cur, shift))
    ensures |Select(cur, shift, false)| == |cur| - Count(Plane(cur, shift))
  {
    if cur != [] {
      SelectLength(cur[..|cur| - 1], shift);
      assert Plane(cur, shift)[..|cur| - 1] == Plane(cur[..|cur| - 1], shift);
    }
  }

  lemma PlanePrefix(cur: seq<int>, shift: nat, p: nat)
    requires p <= |cur|
    ensures Plane(cur, shift)[..p] == Plane(cur[..p], shift)
  {
  }

  lemma SelectPrefixLength(cur: seq<int>, shift: nat, p: nat)
    requires p <= |cur|
    ensures |Select(cur[..p], shift, true)| == Rank1(Plane(cur, shift), p)
    ensures |Select(cur[..p], shift, false)| == p - Rank1(Plane(cur, shift), p)
  {
    hide Select, Count, Plane;
    SelectLength(cur[..p], shift);
    PlanePrefix(cur, shift, p);
  }

  lemma PartitionLength(cur: seq<int>, shift: nat)
    ensures |Partition(cur, shift)| == |cur|
  {
    SelectLength(cur, shift);
  }

  lemma {:induction false} LevelLength(text: seq<int>, bits: nat, lvl: nat)
    requires lvl <= bits
    ensures |Level(text, bits, lvl)| == |text|
  {
    if lvl > 0 {
      LevelLength(text, bits, lvl - 1);
      PartitionLength(Level(text, bits, lvl - 1), bits - lvl);
    }
  }

  /** Where the symbols with bit v of a range [p, q) go when the level is partitioned. */
  function Target(cur: seq<int>, shift: nat, v: bool, p: nat): (t: nat)
    requires p <= |cur|
    ensures t <= |cur|
  {
    var r := Rank1(Plane(cur, shift), p);
    CountMonotone(Plane(cur, shift), p);
    if v then |cur| - Count(Plane(cur, shift)) + r else p - r
  }

  lemma CountMonotone(plane: seq<bool>, p: nat)
    requires p <= |plane|
    ensures Rank1(plane, p) <= Count(plane)
  {
    assert plane == plane[..p] + plane[p..];
    CountAppend(plane[..p], plane[p..]);
  }

  /** The step of every query: a range of one level goes to the range of the next level that holds
      exactly its symbols with the chosen bit, in order. */
  lemma PartitionRange(cur: seq<int>, shift: nat, v: bool, p: nat, q: nat)
    requires p <= q <= |cur|
    ensures var p', q' := Target(cur, shift, v, p), Target(cur, shift, v, q);
            p' <= q' <= |Partition(cur, shift)| && Partition(cur, shift)[p'..q'] == Select(cur[p..q], shift, v)
  {
    hide Select, Count, Rank1, Plane;
    var a, b, c := Select(cur[..p], shift, v), Select(cur[p..q], shift, v), Select(cur[q..], shift, v);
    SelectAppend(cur[..p], cur[p..q], shift, v);
    SelectAppend(cur[..q], cur[q..], shift, v);
    assert cur[..p] + cur[p..q] == cur[..q] && cur[..q] + cur[q..] == cur;
    SelectPrefixLength(cur, shift, p);
    SelectPrefixLength(cur, shift, q);
    SelectLength(cur, shift);
    assert Select(cur, shift, v) == a + b + c;
    var z := Select(cur, shift, false);
    if v {
      assert Partition(cur, shift) == z + a + b + c;
    } else {
      assert Partition(cur, shift) == a + b + (c + Select(cur, shift, true));
    }
  }

  // ---- counting symbols ---------------------------------------------------------------------

  /** The symbols of a text whose bits above `shift` are h, in order. */
  function Sharing(text: seq<int>, shift: nat, h: int): (r: seq<int>) {
    if text == [] then []
    else
      var last := text[|text| - 1];
      Sharing(text[..|text| - 1], shift, h) + (if ShiftRight(last, shift) == h then [last] else [])
  }

  /** How often c occurs in the text. */
  function Occurrences(text: seq<int>, c: int): (n: nat)
    ensures n <= |text|
  {
    if text == [] then 0
    else Occurrences(text[..|text| - 1], c) + (if text[|text| - 1] == c then 1 else 0)
  }

  /** One more shared bit. */
  lemma {:induction false} SharingNext(text: seq<int>, shift: nat, h: int, v: bool)
    ensures Select(Sharing(text, shift + 1, h), shift, v) == Sharing(text, shift, 2 * h + (if v then 1 else 0))
  {
    if text != [] {
      var init, last := text[..|text| - 1], text[|text| - 1];
      SharingNext(init, shift, h, v);
      SelectAppend(Sharing(init, shift + 1, h), if ShiftRight(last, shift + 1) == h then [last] else [], shift, v);
      SelectOne(last, shift, v);
      assert Sharing(init, shift + 1, h) + [] == Sharing(init, shift + 1, h);
    }
  }

  lemma SelectOne(x: int, shift: nat, v: bool)
    ensures Select([x], shift, v) == if BitOf(x, shift) == v then [x] else []
    ensures Select([], shift, v) == []
  {
    assert [x][..0] == [];
  }

  /** Nothing is shared above the top bit: all symbols match. */
  lemma {:induction false} SharingAll(text: seq<int>, bits: nat)
    requires forall i :: 0 <= i < |text| ==> 0 <= text[i] < Pow2(bits)
    ensures Sharing(text, bits, 0) == text
  {
    if text != [] {
      SharingAll(text[..|text| - 1], bits);
      ShiftRightBound(text[|text| - 1], bits, bits);
      assert Pow2(0) == 1;
    }
  }

  /** With all bits shared, what is left are the occurrences. */
  lemma {:induction false} SharingNone(text: seq<int>, c: int)
    ensures |Sharing(text, 0, c)| == Occurrences(text, c)
  {
    if text != [] {
      SharingNone(text[..|text| - 1], c);
    }
  }
}
