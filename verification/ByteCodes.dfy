/** Signed codes of 2, 4 or 8 bits, packed into bytes from the low end. */
module ByteCodes {
  import opened Bits
  import opened Slots

  type Byte = bs: seq<bool> | |bs| == 8 witness seq(8, i => false)

  predicate IsWidth(w: nat) {
    w == 2 || w == 4 || w == 8
  }

  /** The byte that holds code i. */
  function ByteOf(i: nat, w: nat): nat {
    if w == 2 then i / 4 else if w == 4 then i / 2 else i
  }

  /** Where in its byte code i starts. */
  function Slot(i: nat, w: nat): (s: nat)
    requires IsWidth(w)
    ensures s + w <= 8
  {
    if w == 2 then i % 4 * 2 else if w == 4 then i % 2 * 4 else 0
  }

  /** How many codes so many bytes hold. */
  function Capacity(bytes: nat, w: nat): nat {
    if w == 2 then bytes * 4 else if w == 4 then bytes * 2 else bytes
  }

  /** Code i of the payload, as bits. */
  function Code(payload: seq<Byte>, i: nat, w: nat): (bs: seq<bool>)
    requires IsWidth(w) && i < Capacity(|payload|, w)
    ensures |bs| == w
  {
    payload[ByteOf(i, w)][Slot(i, w)..Slot(i, w) + w]
  }

  function HalfRange(w: nat): int
    requires IsWidth(w)
  {
    if w == 2 then 2 else if w == 4 then 8 else 128
  }

  /** A value in two's complement. */
  function Signed(u: nat, w: nat): int
    requires IsWidth(w)
  {
    if u >= HalfRange(w) then u - 2 * HalfRange(w) else u
  }

  // ---- writing ------------------------------------------------------------------------------------

  /** Different codes of one byte do not overlap. */
  lemma SlotsApart(i: nat, j: nat, w: nat)
    requires IsWidth(w) && i != j && ByteOf(i, w) == ByteOf(j, w)
    ensures Slot(i, w) + w <= Slot(j, w) || Slot(j, w) + w <= Slot(i, w)
  {
  }

  lemma ByteInside(i: nat, bytes: nat, w: nat)
    requires IsWidth(w)
    ensures ByteOf(i, w) < bytes <==> i < Capacity(bytes, w)
  {
  }

  /** Replacing the byte of code i, leaving all its bits but those of code i, replaces code i only. */
  lemma ReplaceCode(payload: seq<Byte>, i: nat, w: nat, byte: Byte, j: nat)
    requires IsWidth(w) && i < Capacity(|payload|, w) && j < Capacity(|payload|, w)
    requires Outside(payload[ByteOf(i, w)], byte, Slot(i, w), w)
    ensures Code(payload[ByteOf(i, w) := byte], j, w)
         == if i == j then byte[Slot(i, w)..Slot(i, w) + w] else Code(payload, j, w)
  {
    hide Slot, ByteOf, Capacity;
    ByteInside(i, |payload|, w);
    ByteInside(j, |payload|, w);
    if i != j {
      if ByteOf(i, w) == ByteOf(j, w) {
        SlotsApart(i, j, w);
      }
      SlotKept(payload, ByteOf(i, w), byte, Slot(i, w), ByteOf(j, w), Slot(j, w), w);
    }
  }

  /** Writes code i, as the packer does for each width: or'ed into a clear place, or a whole byte assigned. */
  function PutCode(payload: seq<Byte>, i: nat, q: int, w: nat): (r: seq<Byte>)
    requires IsWidth(w) && i < Capacity(|payload|, w)
    ensures |r| == |payload|
  {
    ByteInside(i, |payload|, w);
    payload[ByteOf(i, w) := if w == 8 then FromNat(q, 8) else OrSlot(payload[ByteOf(i, w)], q, Slot(i, w), w)]
  }

  lemma PutCodeIs(payload: seq<Byte>, i: nat, q: int, w: nat, j: nat)
    requires IsWidth(w) && i < Capacity(|payload|, w) && j < Capacity(|payload|, w)
    requires Code(payload, i, w) == Zeros(w)
    ensures Code(PutCode(payload, i, q, w), j, w) == if i == j then FromNat(q, w) else Code(payload, j, w)
  {
    hide Slot, ByteOf, Capacity, OrSlot, FromNat;
    ByteInside(i, |payload|, w);
    if w == 8 {
      WholeByte(payload, i, q, j);
    } else {
      OrSlotBits(payload[ByteOf(i, w)], q, Slot(i, w), w);
      ReplaceCode(payload, i, w, OrSlot(payload[ByteOf(i, w)], q, Slot(i, w), w), j);
    }
  }

  lemma WholeByte(payload: seq<Byte>, i: nat, q: int, j: nat)
    requires i < Capacity(|payload|, 8) && j < Capacity(|payload|, 8)
    ensures Code(PutCode(payload, i, q, 8), j, 8) == if i == j then FromNat(q, 8) else Code(payload, j, 8)
  {
    hide FromNat;
  }

  // ---- reading ------------------------------------------------------------------------------------

  /** The shifted and masked byte, sign-extended. */
  function ReadCode(payload: seq<Byte>, i: nat, w: nat): int
    requires IsWidth(w) && i < Capacity(|payload|, w)
  {
    ByteInside(i, |payload|, w);
    Signed(ReadSlot(payload[ByteOf(i, w)], Slot(i, w), w), w)
  }

  lemma ReadCodeIs(payload: seq<Byte>, i: nat, w: nat)
    requires IsWidth(w) && i < Capacity(|payload|, w)
    ensures ReadCode(payload, i, w) == Signed(ToNat(Code(payload, i, w)), w)
  {
    hide Slot, ByteOf, Capacity, ReadSlot, ToNat;
    ByteInside(i, |payload|, w);
    ReadSlotIs(payload[ByteOf(i, w)], Slot(i, w), w);
  }

  lemma {:induction false} FromNatWraps(q: int, w: nat)
    ensures FromNat(q, w) == FromNat(q + Pow2(w), w)
    decreases w
  {
    if w > 0 {
      assert (q + Pow2(w)) / 2 == q / 2 + Pow2(w - 1);
      FromNatWraps(q / 2, w - 1);
    }
  }

  lemma Powers()
    ensures Pow2(2) == 4 && Pow2(4) == 16 && Pow2(8) == 256
  {
    assert Pow2(3) == 2 * Pow2(2);
    assert Pow2(5) == 2 * Pow2(4);
    assert Pow2(6) == 2 * Pow2(5) && Pow2(7) == 2 * Pow2(6);
  }

  /** A value that fits is read back as it was written. */
  lemma SignedCode(q: int, w: nat)
    requires IsWidth(w) && -HalfRange(w) <= q < HalfRange(w)
    ensures Signed(ToNat(FromNat(q, w)), w) == q
  {
    hide FromNat, ToNat, Pow2;
    Powers();
    if q >= 0 {
      FromNatToNat(q, w);
    } else {
      FromNatWraps(q, w);
      FromNatToNat(q + Pow2(w), w);
    }
  }

  // ---- payloads are their codes -------------------------------------------------------------------

  /** Bit t of byte k belongs to one code. */
  lemma CodeOfBit(payload: seq<Byte>, k: nat, t: nat, w: nat) returns (i: nat, b: nat)
    requires IsWidth(w) && k < |payload| && t < 8
    ensures i < Capacity(|payload|, w) && b < w && Code(payload, i, w)[b] == payload[k][t]
    ensures i == (if w == 2 then 4 * k + t / 2 else if w == 4 then 2 * k + t / 4 else k) && b == t % w
  {
    i := if w == 2 then 4 * k + t / 2 else if w == 4 then 2 * k + t / 4 else k;
    b := t % w;
  }

  /** Payloads with the same codes are the same. */
  lemma SamePayload(a: seq<Byte>, b: seq<Byte>, w: nat)
    requires IsWidth(w) && |a| == |b|
    requires forall i :: 0 <= i < Capacity(|a|, w) ==> Code(a, i, w) == Code(b, i, w)
    ensures a == b
  {
    hide Code, Capacity;
    forall k | 0 <= k < |a|
      ensures a[k] == b[k]
    {
      forall t | 0 <= t < 8
        ensures a[k][t] == b[k][t]
      {
        var i, at := CodeOfBit(a, k, t, w);
        var i', at' := CodeOfBit(b, k, t, w);
      }
    }
  }
}
