/** Fields of w bits at a place inside one word: or'ing one in, and masking one out. */
module Slots {
  import opened Bits

  /** The word or'ed with the masked and shifted value. */
  function OrSlot(word: seq<bool>, v: int, slot: nat, w: nat): (r: seq<bool>)
    ensures |r| == |word|
  {
    Or(word, Shl(And(FromNat(v, |word|), LowMask(|word|, w)), slot))
  }

  lemma FromNatBit(v: int, w: nat, wide: nat, k: nat)
    requires k < w <= wide
    ensures FromNat(v, wide)[k] == FromNat(v, w)[k]
  {
    FromNatPrefix(v, w, wide);
    assert FromNat(v, wide)[..w][k] == FromNat(v, w)[k];
  }

  /** Where the word is clear the value's low bits appear; the other bits stay. */
  lemma OrSlotBits(word: seq<bool>, v: int, slot: nat, w: nat)
    requires slot + w <= |word| && word[slot..slot + w] == Zeros(w)
    ensures OrSlot(word, v, slot, w)[slot..slot + w] == FromNat(v, w)
    ensures Outside(word, OrSlot(word, v, slot, w), slot, w)
  {
    hide FromNat;
    forall k | 0 <= k < w
      ensures OrSlot(word, v, slot, w)[slot..slot + w][k] == FromNat(v, w)[k]
    {
      assert word[slot..slot + w][k] == Zeros(w)[k];
      FromNatBit(v, w, |word|, k);
    }
  }

  /** The two words agree outside the slot. */
  ghost predicate Outside(word: seq<bool>, word': seq<bool>, slot: nat, w: nat) {
    && |word| == |word'|
    && forall k :: 0 <= k < |word| && !(slot <= k < slot + w) ==> word[k] == word'[k]
  }

  /** The shifted and masked word. */
  function ReadSlot(word: seq<bool>, slot: nat, w: nat): nat {
    ToNat(And(Shr(word, slot), LowMask(|word|, w)))
  }

  lemma ReadSlotIs(word: seq<bool>, slot: nat, w: nat)
    requires slot + w <= |word|
    ensures ReadSlot(word, slot, w) == ToNat(word[slot..slot + w])
  {
    hide ToNat;
    assert And(Shr(word, slot), LowMask(|word|, w)) == word[slot..slot + w] + Zeros(|word| - w);
    ToNatPadded(word[slot..slot + w], |word| - w);
  }

  /** A word changed in one slot keeps every slot apart from it, and so do all other words. */
  lemma SlotKept(words: seq<seq<bool>>, k: nat, word: seq<bool>, slot: nat, k': nat, slot': nat, w: nat)
    requires k < |words| && k' < |words| && slot' + w <= |words[k']|
    requires Outside(words[k], word, slot, w)
    requires k == k' ==> slot + w <= slot' || slot' + w <= slot
    ensures |words[k := word][k']| == |words[k']|
    ensures words[k := word][k'][slot'..slot' + w] == words[k'][slot'..slot' + w]
  {
  }
}
