/** What removing, copying and shifting a range do to the positions a layer holds, over pages and tail together. */
module CachePositions {
  import opened Common
  import opened CacheBooks
  import opened CacheModel
  import opened SequenceCache

  // ---- positions ------------------------------------------------------------------------------------

  predicate InSpan(p: int, begin: int, end: int) {
    begin <= p < end
  }

  predicate RefHas(ref: PageRef, p: int) {
    ref.logicalBegin <= p < ref.logicalBegin + ref.tokenCount
  }

  predicate TailHas(layer: Layer, p: int) {
    layer.activeBegin <= p < layer.activeBegin + layer.activeCount
  }

  ghost predicate PagesHave(refs: seq<PageRef>, p: int) {
    exists i :: 0 <= i < |refs| && RefHas(refs[i], p)
  }

  /** Position p is in one of the layer's pages or in its tail. */
  ghost predicate Holds(layer: Layer, p: int) {
    PagesHave(layer.sealedPages, p) || TailHas(layer, p)
  }

  /** No position of the page is in the range. */
  ghost predicate RefOutside(ref: PageRef, begin: int, end: int) {
    forall p :: RefHas(ref, p) ==> !InSpan(p, begin, end)
  }

  ghost predicate RefInside(ref: PageRef, begin: int, end: int) {
    forall p :: RefHas(ref, p) ==> InSpan(p, begin, end)
  }

  /** The second list is the first at these places, in order. */
  ghost predicate Picked<T>(from: seq<T>, to: seq<T>, places: seq<nat>) {
    && |places| == |to|
    && (forall k :: 0 <= k < |to| ==> places[k] < |from| && to[k] == from[places[k]])
    && (forall j, k :: 0 <= j < k < |to| ==> places[j] < places[k])
  }

  lemma PickedNext<T>(from: seq<T>, to: seq<T>, places: seq<nat>, x: T)
    requires Picked(from, to, places)
    ensures Picked(from + [x], to, places) && Picked(from + [x], to + [x], places + [|from|])
  {
  }

  // ---- removing ---------------------------------------------------------------------------------------

  lemma OutsideIs(ref: PageRef, begin: nat, end: nat)
    requires begin <= end && ref.tokenCount > 0 && !Cuts(ref, begin, end)
    ensures Outside(ref, begin, end) <==> RefOutside(ref, begin, end)
    ensures !Outside(ref, begin, end) ==> RefInside(ref, begin, end)
  {
    assert RefHas(ref, ref.logicalBegin);
    if !Outside(ref, begin, end) {
      assert InSpan(ref.logicalBegin, begin, end);
    }
  }

  /** The references that stay are those of the pages outside the range, in their old order. */
  lemma {:induction false} KeptArePicked(refs: seq<PageRef>, begin: nat, end: nat) returns (places: seq<nat>)
    requires begin <= end && forall i :: 0 <= i < |refs| ==> !Cuts(refs[i], begin, end)
    ensures Picked(refs, KeptRefs(refs, begin, end), places)
    ensures forall i :: 0 <= i < |refs| && refs[i].tokenCount > 0 ==> (i in places <==> RefOutside(refs[i], begin, end))
  {
    places := [];
    if refs != [] {
      var init, last := refs[..|refs| - 1], refs[|refs| - 1];
      var before := KeptArePicked(init, begin, end);
      PickedNext(init, KeptRefs(init, begin, end), before, last);
      assert refs == init + [last];
      if last.tokenCount > 0 {
        OutsideIs(last, begin, end);
      }
      places := if Outside(last, begin, end) then before + [|init|] else before;
      assert forall i :: 0 <= i < |init| ==> (i in places <==> i in before);
    }
  }

  lemma KeptPagesHave(refs: seq<PageRef>, begin: nat, end: nat, p: nat)
    requires begin <= end && forall i :: 0 <= i < |refs| ==> !Cuts(refs[i], begin, end)
    ensures PagesHave(KeptRefs(refs, begin, end), p) <==> PagesHave(refs, p) && !InSpan(p, begin, end)
  {
    var kept := KeptRefs(refs, begin, end);
    var places := KeptArePicked(refs, begin, end);
    if PagesHave(kept, p) {
      var k :| 0 <= k < |kept| && RefHas(kept[k], p);
      assert places[k] in places && RefHas(refs[places[k]], p);
    }
    if PagesHave(refs, p) && !InSpan(p, begin, end) {
      var i :| 0 <= i < |refs| && RefHas(refs[i], p);
      OutsideIs(refs[i], begin, end);
      var k :| 0 <= k < |places| && places[k] == i;
      assert RefHas(kept[k], p);
    }
  }

  lemma CutTailHas(layer: Layer, begin: nat, end: nat, p: nat)
    requires begin <= end && CutTail(layer, begin, end) != Refused
    ensures TailHas(layer.(activeCount := CutTail(layer, begin, end).count), p)
       <==> TailHas(layer, p) && !InSpan(p, begin, end)
  {
  }

  /** Main result: a layer the range was removed from holds exactly its old positions outside the range, in the same
      pages and in a tail that begins where it did. */
  lemma RemovedPositions(layer: Layer, begin: nat, end: nat, p: nat)
    requires begin <= end && Removable(layer, begin, end)
    ensures var r := RemovedLayer(layer, begin, end);
            && (PagesHave(r.sealedPages, p) <==> PagesHave(layer.sealedPages, p) && !InSpan(p, begin, end))
            && (TailHas(r, p) <==> TailHas(layer, p) && !InSpan(p, begin, end))
            && (Holds(r, p) <==> Holds(layer, p) && !InSpan(p, begin, end))
            && r.activeBegin == layer.activeBegin
  {
    hide PagesHave, KeptRefs, CutTail;
    KeptPagesHave(layer.sealedPages, begin, end, p);
    CutTailHas(layer, begin, end, p);
  }

  /** Two neighbouring positions of one page or of the tail, the second of them `at`. */
  ghost predicate FallsInside(layer: Layer, at: nat) {
    && at > 0
    && ((TailHas(layer, at - 1) && TailHas(layer, at)) || exists i :: (
          0 <= i < |layer.sealedPages| && RefHas(layer.sealedPages[i], at - 1) && RefHas(layer.sealedPages[i], at)))
  }

  /** Some position is in the range and some position is not: the page would be cut. */
  ghost predicate RefSplit(ref: PageRef, begin: int, end: int) {
    !RefInside(ref, begin, end) && !RefOutside(ref, begin, end)
  }

  /** The range takes a position of the tail and leaves a later one. */
  ghost predicate TailSplit(layer: Layer, begin: int, end: int) {
    exists p, later :: TailHas(layer, p) && InSpan(p, begin, end) && TailHas(layer, later) && later >= end
  }

  lemma CutsIsSplit(ref: PageRef, begin: nat, end: nat)
    requires begin < end
    ensures Cuts(ref, begin, end) <==> RefSplit(ref, begin, end)
  {
    var first, last := ref.logicalBegin, ref.logicalBegin + ref.tokenCount - 1;
    if Cuts(ref, begin, end) {
      var inside := if begin > first then begin else first;
      assert RefHas(ref, first) && RefHas(ref, last) && RefHas(ref, inside) && InSpan(inside, begin, end);
      assert !InSpan(first, begin, end) || !InSpan(last, begin, end);
    }
  }

  lemma RefusedIsSplit(layer: Layer, begin: nat, end: nat)
    requires begin < end
    ensures CutTail(layer, begin, end) == Refused <==> TailSplit(layer, begin, end)
  {
    if CutTail(layer, begin, end) == Refused {
      assert TailHas(layer, end - 1) && InSpan(end - 1, begin, end) && TailHas(layer, end);
    }
  }

  /** A range can be removed exactly when it splits no page and takes nothing but an end of the tail; an empty range,
      exactly when it does not fall inside a page or the tail. */
  lemma RemovableExactly(layer: Layer, begin: nat, end: nat)
    requires begin <= end
    ensures begin < end ==> (Removable(layer, begin, end) <==> (
      && (forall i :: 0 <= i < |layer.sealedPages| ==> !RefSplit(layer.sealedPages[i], begin, end))
      && !TailSplit(layer, begin, end)))
    ensures begin == end ==> (Removable(layer, begin, end) <==> !FallsInside(layer, begin))
  {
    if begin < end {
      hide Cuts, RefSplit, CutTail, TailSplit;
      RefusedIsSplit(layer, begin, end);
      forall i | 0 <= i < |layer.sealedPages|
        ensures Cuts(layer.sealedPages[i], begin, end) <==> RefSplit(layer.sealedPages[i], begin, end)
      {
        CutsIsSplit(layer.sealedPages[i], begin, end);
      }
    } else {
      EmptyRange(layer, begin);
    }
  }

  lemma EmptyRange(layer: Layer, at: nat)
    ensures Removable(layer, at, at) <==> !FallsInside(layer, at)
  {
    forall i | 0 <= i < |layer.sealedPages|
      ensures Cuts(layer.sealedPages[i], at, at)
         <==> at > 0 && RefHas(layer.sealedPages[i], at - 1) && RefHas(layer.sealedPages[i], at)
    {
    }
  }

  /** The same of a whole call: every layer of the sequence lost exactly the range, every other sequence nothing. */
  lemma RemovalByPositions(before: map<int, Sequence>, after: map<int, Sequence>, id: int, positionBegin: int,
                           positionEnd: int, r: Outcome, stuck: nat, lost: seq<nat>, l: nat, p: nat)
    requires positionBegin <= positionEnd && 0 <= positionEnd && id in before && l < |before[id].layers|
    requires RemovalOutcome(before, after, id, Max0(positionBegin), positionEnd, r, stuck, lost) && TookEffect(r)
    ensures after.Keys == before.Keys
    ensures forall other :: other in before && other != id ==> after[other] == before[other]
    ensures |after[id].layers| == |before[id].layers|
    ensures Holds(after[id].layers[l], p)
       <==> Holds(before[id].layers[l], p) && !InSpan(p, positionBegin, positionEnd)
  {
    hide Removable, RemovedLayer, Holds, PagesHave;
    RemovedPositions(before[id].layers[l], Max0(positionBegin), positionEnd, p);
  }

  /** A roll back to the baseline brings back the tail as it was before a removal made since the baseline was taken;
      the pages removed stay removed. */
  lemma RollbackRevives(layer: Layer, begin: nat, end: nat, p: nat)
    requires begin <= end && Removable(layer, begin, end)
    ensures var r := WithCount(RemovedLayer(layer, begin, end), layer.activeCount);
            && (TailHas(r, p) <==> TailHas(layer, p))
            && (PagesHave(r.sealedPages, p) <==> PagesHave(layer.sealedPages, p) && !InSpan(p, begin, end))
  {
    hide PagesHave, KeptRefs, CutTail;
    RemovedPositions(layer, begin, end, p);
  }

  // ---- copying ----------------------------------------------------------------------------------------

  lemma InRangeIs(ref: PageRef, begin: nat, end: nat)
    requires ref.tokenCount > 0
    ensures InRange(ref, begin, end) <==> RefInside(ref, begin, end)
  {
    assert RefHas(ref, ref.logicalBegin) && RefHas(ref, ref.logicalBegin + ref.tokenCount - 1);
  }

  /** The references copied are those of the pages inside the range, in their old order. */
  lemma {:induction false} CopiedArePicked(refs: seq<PageRef>, begin: nat, end: nat) returns (places: seq<nat>)
    ensures Picked(refs, CopiedRefs(refs, begin, end), places)
    ensures forall i :: 0 <= i < |refs| && refs[i].tokenCount > 0 ==> (i in places <==> RefInside(refs[i], begin, end))
  {
    places := [];
    if refs != [] {
      var init, last := refs[..|refs| - 1], refs[|refs| - 1];
      var before := CopiedArePicked(init, begin, end);
      PickedNext(init, CopiedRefs(init, begin, end), before, last);
      assert refs == init + [last];
      if last.tokenCount > 0 {
        InRangeIs(last, begin, end);
      }
      places := if InRange(last, begin, end) then before + [|init|] else before;
      assert forall i :: 0 <= i < |init| ==> (i in places <==> i in before);
    }
  }

  /** Position p is in a page that lies inside the range. */
  ghost predicate WholePagesHave(refs: seq<PageRef>, begin: int, end: int, p: int) {
    exists i :: 0 <= i < |refs| && RefHas(refs[i], p) && RefInside(refs[i], begin, end)
  }

  ghost predicate TailInside(layer: Layer, begin: int, end: int) {
    forall p :: TailHas(layer, p) ==> InSpan(p, begin, end)
  }

  lemma CopiedPagesHave(refs: seq<PageRef>, begin: nat, end: nat, p: nat)
    ensures PagesHave(CopiedRefs(refs, begin, end), p) <==> WholePagesHave(refs, begin, end, p)
  {
    var copied := CopiedRefs(refs, begin, end);
    var places := CopiedArePicked(refs, begin, end);
    if PagesHave(copied, p) {
      var k :| 0 <= k < |copied| && RefHas(copied[k], p);
      assert places[k] in places && RefHas(refs[places[k]], p);
    }
    if WholePagesHave(refs, begin, end, p) {
      var i :| 0 <= i < |refs| && RefHas(refs[i], p) && RefInside(refs[i], begin, end);
      var k :| 0 <= k < |places| && places[k] == i;
      assert RefHas(copied[k], p);
    }
  }

  lemma CopiedTailHas(layer: Layer, begin: nat, end: nat, p: nat)
    ensures TailHas(CopiedLayer(layer, begin, end), p) <==> TailHas(layer, p) && TailInside(layer, begin, end)
  {
    hide CopiedRefs;
    if layer.activeCount > 0 {
      assert TailHas(layer, layer.activeBegin) && TailHas(layer, layer.activeBegin + layer.activeCount - 1);
    }
  }

  /** Main result: a copy holds exactly the pages, and the tail, that lie inside the range; so nothing outside it. */
  lemma CopiedPositions(layers: seq<Layer>, begin: nat, end: nat, l: nat, p: nat)
    requires l < |layers|
    ensures var copy := CopiedLayers(layers, begin, end)[l];
            && (PagesHave(copy.sealedPages, p) <==> WholePagesHave(layers[l].sealedPages, begin, end, p))
            && (TailHas(copy, p) <==> TailHas(layers[l], p) && TailInside(layers[l], begin, end))
            && (Holds(copy, p) ==> Holds(layers[l], p) && InSpan(p, begin, end))
  {
    hide CopiedRefs, TailInside;
    CopiedPagesHave(layers[l].sealedPages, begin, end, p);
    CopiedTailHas(layers[l], begin, end, p);
    CopiedInSpan(layers[l], begin, end, p);
  }

  lemma CopiedInSpan(layer: Layer, begin: nat, end: nat, p: nat)
    ensures WholePagesHave(layer.sealedPages, begin, end, p) ==> Holds(layer, p) && InSpan(p, begin, end)
    ensures TailHas(layer, p) && TailInside(layer, begin, end) ==> Holds(layer, p) && InSpan(p, begin, end)
  {
  }

  /** The copy holds all of the range that the source holds. */
  ghost predicate CopyComplete(layer: Layer, begin: nat, end: nat) {
    forall p :: 0 <= p && Holds(layer, p) && InSpan(p, begin, end) ==> Holds(CopiedLayer(layer, begin, end), p)
  }

  /** Some position of the tail is in the range and some is not. */
  ghost predicate TailStraddles(layer: Layer, begin: int, end: int) {
    !TailInside(layer, begin, end) && exists p :: TailHas(layer, p) && InSpan(p, begin, end)
  }

  /** No position of an ordered layer is held twice. */
  lemma HeldOnce(layer: Layer, i: nat, j: nat, p: int)
    requires Ordered(layer) && i < |layer.sealedPages| && RefHas(layer.sealedPages[i], p)
    ensures !TailHas(layer, p)
    ensures j < |layer.sealedPages| && RefHas(layer.sealedPages[j], p) ==> j == i
  {
    LastEnd(layer.sealedPages, layer.sealedPages[i]);
  }

  /** A copy leaves part of the range behind exactly when the range splits a page or the tail. */
  lemma CopyCompleteExactly(layer: Layer, begin: nat, end: nat)
    requires Ordered(layer)
    ensures CopyComplete(layer, begin, end) <==> (
      && (forall i :: 0 <= i < |layer.sealedPages| ==> !RefSplit(layer.sealedPages[i], begin, end))
      && !TailStraddles(layer, begin, end))
  {
    hide Ordered, CopiedLayer, PagesHave;
    var refs := layer.sealedPages;
    if i :| 0 <= i < |refs| && RefSplit(refs[i], begin, end) {
      var p :| RefHas(refs[i], p) && InSpan(p, begin, end);
      SplitPageLeft(layer, begin, end, i, p);
    } else if TailStraddles(layer, begin, end) {
      var p :| TailHas(layer, p) && InSpan(p, begin, end);
      SplitTailLeft(layer, begin, end, p);
    } else {
      forall p | 0 <= p && Holds(layer, p) && InSpan(p, begin, end)
        ensures Holds(CopiedLayer(layer, begin, end), p)
      {
        NothingLeft(layer, begin, end, p);
      }
    }
  }

  lemma SplitPageLeft(layer: Layer, begin: nat, end: nat, i: nat, p: nat)
    requires Ordered(layer) && i < |layer.sealedPages| && RefSplit(layer.sealedPages[i], begin, end)
    requires RefHas(layer.sealedPages[i], p)
    ensures Holds(layer, p) && !Holds(CopiedLayer(layer, begin, end), p)
  {
    hide Ordered, CopiedRefs;
    HeldOnce(layer, i, i, p);
    CopiedPagesHave(layer.sealedPages, begin, end, p);
    if WholePagesHave(layer.sealedPages, begin, end, p) {
      var j :| 0 <= j < |layer.sealedPages| && RefHas(layer.sealedPages[j], p)
            && RefInside(layer.sealedPages[j], begin, end);
      HeldOnce(layer, i, j, p);
    }
    CopiedTailHas(layer, begin, end, p);
  }

  lemma SplitTailLeft(layer: Layer, begin: nat, end: nat, p: nat)
    requires Ordered(layer) && !TailInside(layer, begin, end) && TailHas(layer, p)
    ensures Holds(layer, p) && !Holds(CopiedLayer(layer, begin, end), p)
  {
    hide Ordered, CopiedRefs;
    CopiedPagesHave(layer.sealedPages, begin, end, p);
    if WholePagesHave(layer.sealedPages, begin, end, p) {
      var j :| 0 <= j < |layer.sealedPages| && RefHas(layer.sealedPages[j], p)
            && RefInside(layer.sealedPages[j], begin, end);
      HeldOnce(layer, j, j, p);
    }
    CopiedTailHas(layer, begin, end, p);
  }

  lemma NothingLeft(layer: Layer, begin: nat, end: nat, p: nat)
    requires forall i :: 0 <= i < |layer.sealedPages| ==> !RefSplit(layer.sealedPages[i], begin, end)
    requires !TailStraddles(layer, begin, end) && Holds(layer, p) && InSpan(p, begin, end)
    ensures Holds(CopiedLayer(layer, begin, end), p)
  {
    hide CopiedRefs;
    CopiedPagesHave(layer.sealedPages, begin, end, p);
    CopiedTailHas(layer, begin, end, p);
    if PagesHave(layer.sealedPages, p) {
      var i :| 0 <= i < |layer.sealedPages| && RefHas(layer.sealedPages[i], p);
      assert RefInside(layer.sealedPages[i], begin, end);
    }
  }

  // ---- shifting ---------------------------------------------------------------------------------------

  /** Where the shift should put a position, in 32 bits. */
  function Moved(p: int, begin: int, end: int, delta: int): int {
    (if InSpan(p, begin, end) then p + delta else p) % UINT32
  }

  ghost predicate MovedAt(first: int, first': int, k: int, begin: int, end: int, delta: int) {
    (first' + k) % UINT32 == Moved(first + k, begin, end, delta)
  }

  /** So many positions in a row, one by one. */
  ghost predicate RunMoved(first: int, first': int, count: nat, begin: int, end: int, delta: int) {
    forall k :: 0 <= k < count ==> MovedAt(first, first', k, begin, end, delta)
  }

  /** Positions of the page, and the page itself. */
  ghost predicate RefMoved(ref: PageRef, ref': PageRef, begin: int, end: int, delta: int) {
    && ref'.pageId == ref.pageId && ref'.tokenCount == ref.tokenCount
    && RunMoved(ref.logicalBegin, ref'.logicalBegin, ref.tokenCount, begin, end, delta)
  }

  ghost predicate TailMoved(layer: Layer, layer': Layer, begin: int, end: int, delta: int) {
    && layer'.activeCount == layer.activeCount
    && RunMoved(layer.activeBegin, layer'.activeBegin, layer.activeCount, begin, end, delta)
  }

  lemma AddInside(x: int, k: int)
    ensures (x % UINT32 + k) % UINT32 == (x + k) % UINT32
  {
  }

  lemma RunShifts(first: int, count: nat, begin: int, end: int, delta: int)
    requires begin <= first && first + count <= end
    ensures RunMoved(first, (first + delta) % UINT32, count, begin, end, delta)
  {
    var first' := (first + delta) % UINT32;
    forall k | 0 <= k < count
      ensures MovedAt(first, first', k, begin, end, delta)
    {
      AddInside(first + delta, k);
    }
  }

  /** None of so many positions in a row is in the range. */
  ghost predicate RunOutside(first: int, count: nat, begin: int, end: int) {
    forall p :: first <= p < first + count ==> !InSpan(p, begin, end)
  }

  lemma StaysAt(first: int, k: int, begin: int, end: int, delta: int)
    ensures MovedAt(first, first, k, begin, end, delta) <==> delta % UINT32 == 0 || !InSpan(first + k, begin, end)
  {
    SameResidue(first + k, delta);
  }

  /** Positions that keep their place are where they should be only outside the range, unless the shift is none. */
  lemma RunStays(first: int, count: nat, begin: int, end: int, delta: int)
    ensures RunMoved(first, first, count, begin, end, delta)
       <==> delta % UINT32 == 0 || RunOutside(first, count, begin, end)
  {
    hide MovedAt, InSpan;
    forall k | 0 <= k < count
      ensures MovedAt(first, first, k, begin, end, delta) <==> delta % UINT32 == 0 || !InSpan(first + k, begin, end)
    {
      StaysAt(first, k, begin, end, delta);
    }
    if p :| first <= p < first + count && InSpan(p, begin, end) {
      StaysAt(first, p - first, begin, end, delta);
      assert first + (p - first) == p;
      assert RunMoved(first, first, count, begin, end, delta) ==> MovedAt(first, first, p - first, begin, end, delta);
    }
  }

  lemma ShiftedRefMoved(ref: PageRef, begin: nat, end: nat, delta: int)
    requires Movable(ref, begin, end, delta)
    ensures RefMoved(ref, ShiftedRef(ref, begin, end, delta), begin, end, delta)
  {
    hide RunMoved;
    if InRange(ref, begin, end) {
      RunShifts(ref.logicalBegin, ref.tokenCount, begin, end, delta);
    } else {
      assert RunOutside(ref.logicalBegin, ref.tokenCount, begin, end);
      RunStays(ref.logicalBegin, ref.tokenCount, begin, end, delta);
    }
  }

  lemma ShiftedTailMoved(layer: Layer, begin: nat, end: nat, delta: int)
    requires Shiftable(layer, begin, end, delta)
    ensures TailMoved(layer, ShiftedLayer(layer, begin, end, delta), begin, end, delta)
       <==> delta % UINT32 == 0 || !TailStraddles(layer, begin, end)
  {
    hide RunMoved, TailStraddles, RunOutside;
    TailStraddlesIs(layer, begin, end);
    if TailInRange(layer, begin, end) {
      RunShifts(layer.activeBegin, layer.activeCount, begin, end, delta);
    } else {
      RunStays(layer.activeBegin, layer.activeCount, begin, end, delta);
    }
  }

  lemma TailStraddlesIs(layer: Layer, begin: nat, end: nat)
    ensures TailStraddles(layer, begin, end) <==> (
      !TailInRange(layer, begin, end) && !RunOutside(layer.activeBegin, layer.activeCount, begin, end))
  {
    var first := layer.activeBegin;
    forall p
      ensures TailHas(layer, p) <==> first <= p < first + layer.activeCount
    {
    }
    if layer.activeCount > 0 {
      assert TailHas(layer, first) && TailHas(layer, first + layer.activeCount - 1);
    }
  }

  lemma SameResidue(p: int, delta: int)
    ensures (p + delta) % UINT32 == p % UINT32 <==> delta % UINT32 == 0
  {
  }

  /** Main result: a shifted layer has the same pages, and every position of a page inside the range has moved, every
      other not.  The same holds of the tail exactly when the range does not split it: a split tail stays in place. */
  lemma ShiftedPositions(layer: Layer, begin: nat, end: nat, delta: int)
    requires Moves(layer, begin, end, delta)
    ensures var next := ShiftedLayer(layer, begin, end, delta);
            && |next.sealedPages| == |layer.sealedPages|
            && (forall i :: 0 <= i < |layer.sealedPages| ==>
                  RefMoved(layer.sealedPages[i], next.sealedPages[i], begin, end, delta))
            && (TailMoved(layer, next, begin, end, delta)
                <==> delta % UINT32 == 0 || !TailStraddles(layer, begin, end))
  {
    hide Movable, Ordered, RefMoved, TailMoved, TailStraddles;
    ShiftedTailMoved(layer, begin, end, delta);
    forall i | 0 <= i < |layer.sealedPages|
      ensures RefMoved(layer.sealedPages[i], ShiftedLayer(layer, begin, end, delta).sealedPages[i], begin, end, delta)
    {
      ShiftedRefMoved(layer.sealedPages[i], begin, end, delta);
    }
  }

  /** No position of a page in the range would become negative. */
  ghost predicate RefStaysUp(ref: PageRef, begin: int, end: int, delta: int) {
    forall p :: RefHas(ref, p) && InSpan(p, begin, end) ==> p >= -delta
  }

  ghost predicate TailStaysUp(layer: Layer, begin: int, end: int, delta: int) {
    TailInside(layer, begin, end) ==> forall p :: TailHas(layer, p) ==> p >= -delta
  }

  lemma MovableIs(ref: PageRef, begin: nat, end: nat, delta: int)
    requires begin < end && ref.tokenCount > 0
    ensures Movable(ref, begin, end, delta) <==> !RefSplit(ref, begin, end) && RefStaysUp(ref, begin, end, delta)
  {
    var first, last := ref.logicalBegin, ref.End() - 1;
    assert RefHas(ref, first) && RefHas(ref, last);
    InRangeIs(ref, begin, end);
    if Straddles(ref, begin, end) {
      var inside := if begin > first then begin else first;
      assert RefHas(ref, inside) && InSpan(inside, begin, end);
    }
  }

  lemma TailStaysUpIs(layer: Layer, begin: nat, end: nat, delta: int)
    ensures TailStaysUp(layer, begin, end, delta)
       <==> (TailInRange(layer, begin, end) ==> layer.activeBegin + delta >= 0)
  {
    if layer.activeCount > 0 {
      assert TailHas(layer, layer.activeBegin) && TailHas(layer, layer.activeBegin + layer.activeCount - 1);
    }
  }

  /** A layer without empty pages can be shifted exactly when the range splits no page, no position would become
      negative, and the positions increase afterwards. */
  lemma MovesExactly(layer: Layer, begin: nat, end: nat, delta: int)
    requires begin < end && forall i :: 0 <= i < |layer.sealedPages| ==> layer.sealedPages[i].tokenCount > 0
    ensures Moves(layer, begin, end, delta) <==> (
      && (forall i :: 0 <= i < |layer.sealedPages| ==>
            !RefSplit(layer.sealedPages[i], begin, end) && RefStaysUp(layer.sealedPages[i], begin, end, delta))
      && TailStaysUp(layer, begin, end, delta)
      && (Shiftable(layer, begin, end, delta) ==> Ordered(ShiftedLayer(layer, begin, end, delta))))
  {
    hide Movable, RefSplit, RefStaysUp, TailStaysUp, TailInRange, Ordered;
    TailStaysUpIs(layer, begin, end, delta);
    forall i | 0 <= i < |layer.sealedPages|
      ensures Movable(layer.sealedPages[i], begin, end, delta)
         <==> !RefSplit(layer.sealedPages[i], begin, end) && RefStaysUp(layer.sealedPages[i], begin, end, delta)
    {
      MovableIs(layer.sealedPages[i], begin, end, delta);
    }
  }

  /** A tail of positions 0 to 9 keeps them all when [4, 20) is shifted by 5: the call succeeds and moves nothing. */
  lemma SplitTailStays()
    ensures var layer := Layer([], 0, 10, 0, 0);
            Moves(layer, 4, 20, 5) && ShiftedLayer(layer, 4, 20, 5).activeBegin == 0 && TailStraddles(layer, 4, 20)
  {
    var layer := Layer([], 0, 10, 0, 0);
    assert TailHas(layer, 0) && TailHas(layer, 5) && InSpan(5, 4, 20);
  }

  /** A new sequence holds no position and no speculation. */
  lemma CreatedHoldsNothing(id: int, layerCount: nat, generation: nat, l: nat, p: nat)
    requires l < layerCount
    ensures var s := NewSequence(id, layerCount, generation);
            |s.layers| == layerCount && !Holds(s.layers[l], p) && s.logicalShift == 0 && !s.speculation.active
  {
  }

  // ---- order --------------------------------------------------------------------------------------------

  /** Every position of the first page comes before every position of the second. */
  ghost predicate Before(a: PageRef, b: PageRef) {
    forall p, q :: RefHas(a, p) && RefHas(b, q) ==> p < q
  }

  ghost predicate BeforeTail(a: PageRef, layer: Layer) {
    forall p, q :: RefHas(a, p) && TailHas(layer, q) ==> p < q
  }

  lemma BeforeIs(a: PageRef, b: PageRef)
    requires a.tokenCount > 0 && b.tokenCount > 0
    ensures Before(a, b) <==> a.End() <= b.logicalBegin
  {
    assert RefHas(a, a.End() - 1) && RefHas(b, b.logicalBegin);
  }

  lemma BeforeTailIs(a: PageRef, layer: Layer)
    requires a.tokenCount > 0 && layer.activeCount > 0
    ensures BeforeTail(a, layer) <==> a.End() <= layer.activeBegin
  {
    assert RefHas(a, a.End() - 1) && TailHas(layer, layer.activeBegin);
  }

  /** A layer passes the order check exactly when no page is empty and its positions increase from page to page and on
      into the tail. */
  lemma OrderedExactly(layer: Layer)
    ensures Ordered(layer) <==> (
      && (forall i :: 0 <= i < |layer.sealedPages| ==> layer.sealedPages[i].tokenCount > 0)
      && (forall i, j :: 0 <= i < j < |layer.sealedPages| ==> Before(layer.sealedPages[i], layer.sealedPages[j]))
      && (forall i :: 0 <= i < |layer.sealedPages| ==> BeforeTail(layer.sealedPages[i], layer)))
  {
    hide Before, BeforeTail, RefHas, TailHas;
    var refs := layer.sealedPages;
    if forall i :: 0 <= i < |refs| ==> refs[i].tokenCount > 0 {
      forall i, j | 0 <= i < j < |refs|
        ensures Before(refs[i], refs[j]) <==> refs[i].End() <= refs[j].logicalBegin
      {
        BeforeIs(refs[i], refs[j]);
      }
      if layer.activeCount > 0 {
        forall i | 0 <= i < |refs|
          ensures BeforeTail(refs[i], layer) <==> refs[i].End() <= layer.activeBegin
        {
          BeforeTailIs(refs[i], layer);
        }
      } else {
        NoTail(layer);
      }
    }
  }

  lemma NoTail(layer: Layer)
    requires layer.activeCount == 0
    ensures forall ref :: BeforeTail(ref, layer)
  {
  }
}
