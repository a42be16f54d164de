/** The values a multi-sequence cache keeps, what it means for its page references to be accounted for,
    and what each operation does to one layer. */
module CacheModel {
  import opened Common

  datatype SharedPage = SharedPage(pageId: nat, residentBytes: nat, refcount: nat, retired: bool)

  datatype PageRef = PageRef(pageId: nat, logicalBegin: nat, tokenCount: nat)
  {
    function End(): nat { logicalBegin + tokenCount }
  }

  datatype Layer = Layer(sealedPages: seq<PageRef>, activeBegin: nat, activeCount: nat,
                         activeGeneration: nat, descriptorGeneration: nat)
  {
    function ActiveEnd(): nat { activeBegin + activeCount }
  }

  datatype Speculation = Speculation(id: nat, baselineCount: nat, baselineGeneration: nat, active: bool)

  const NO_SPECULATION: Speculation := Speculation(0, 0, 0, false)

  datatype Sequence = Sequence(id: int, layers: seq<Layer>, topologyGeneration: nat, logicalShift: int,
                               speculation: Speculation)

  datatype RetiredPage = RetiredPage(pageId: nat, residentBytes: nat, generation: nat)

  // ---- references ---------------------------------------------------------------------------

  /** The pages a layer refers to, in order. */
  function LayerIds(refs: seq<PageRef>): (ids: seq<nat>)
    ensures |ids| == |refs| && forall i :: 0 <= i < |refs| ==> ids[i] == refs[i].pageId
  {
    seq(|refs|, i requires 0 <= i < |refs| => refs[i].pageId)
  }

  /** The pages the layers of a sequence refer to, layer by layer. */
  function SequenceIds(layers: seq<Layer>): seq<nat> {
    if layers == [] then [] else SequenceIds(layers[..|layers| - 1]) + LayerIds(layers[|layers| - 1].sealedPages)
  }

  lemma SomeSequence(sequences: map<int, Sequence>)
    requires sequences != map[]
    ensures exists id :: id in sequences
  {
    assert (forall id :: id !in sequences) ==> sequences == map[];
  }

  /** Every reference held by any sequence, with multiplicity. */
  ghost function References(sequences: map<int, Sequence>): multiset<nat>
    decreases |sequences|
  {
    if sequences == map[] then multiset{}
    else
      SomeSequence(sequences);
      var id :| id in sequences;
      References(sequences - {id}) + multiset(SequenceIds(sequences[id].layers))
  }

  /** Any sequence can be taken out first. */
  lemma {:induction false} ReferencesWithout(sequences: map<int, Sequence>, id: int)
    requires id in sequences
    ensures References(sequences) == References(sequences - {id}) + multiset(SequenceIds(sequences[id].layers))
    decreases |sequences|
  {
    hide SequenceIds, LayerIds;
    var first :| first in sequences && References(sequences)
      == References(sequences - {first}) + multiset(SequenceIds(sequences[first].layers));
    if first != id {
      ReferencesWithout(sequences - {first}, id);
      ReferencesWithout(sequences - {id}, first);
      assert sequences - {first} - {id} == sequences - {id} - {first};
    }
  }

  /** Replacing or adding a sequence exchanges its references. */
  lemma ReferencesUpdate(sequences: map<int, Sequence>, id: int, next: Sequence)
    ensures References(sequences[id := next]) == References(sequences - {id}) + multiset(SequenceIds(next.layers))
  {
    hide SequenceIds, References;
    ReferencesWithout(sequences[id := next], id);
    assert sequences[id := next] - {id} == sequences - {id};
  }

  // ---- ownership ----------------------------------------------------------------------------

  function PendingBytes(retired: seq<RetiredPage>): nat {
    if retired == [] then 0 else PendingBytes(retired[..|retired| - 1]) + retired[|retired| - 1].residentBytes
  }

  /** Every reference resolves to a live page, every live page counts its references exactly, and no
      retired page is referenced. */
  ghost predicate Counted(pages: map<nat, SharedPage>, refs: multiset<nat>) {
    && (forall p :: p in refs ==> p in pages)
    && (forall p :: p in pages ==> pages[p].pageId == p)
    && (forall p :: p in pages ==> pages[p].refcount < UINT32)
    && (forall p :: p in pages && !pages[p].retired ==> pages[p].refcount == refs[p])
    && (forall p :: p in pages && pages[p].retired ==> pages[p].refcount == 0 && p !in refs)
  }

  /** The queue holds exactly the retired pages, once each, with their sizes. */
  ghost predicate Queued(pages: map<nat, SharedPage>, retired: seq<RetiredPage>) {
    && (forall i :: 0 <= i < |retired| ==> retired[i].pageId in pages)
    && (forall i :: 0 <= i < |retired| ==> pages[retired[i].pageId].retired)
    && (forall i :: 0 <= i < |retired| ==> retired[i].residentBytes == pages[retired[i].pageId].residentBytes)
    && (forall i, j :: 0 <= i < j < |retired| ==> retired[i].pageId != retired[j].pageId)
    && (forall p :: p in pages && pages[p].retired ==> InQueue(retired, p))
  }

  ghost predicate InQueue(retired: seq<RetiredPage>, p: nat) {
    exists i :: 0 <= i < |retired| && retired[i].pageId == p
  }

  function Acquired(page: SharedPage): SharedPage {
    page.(refcount := page.refcount + 1)
  }

  /** Dropping a reference; the last one retires the page. */
  function Released(page: SharedPage): SharedPage
    requires page.refcount > 0
  {
    page.(refcount := page.refcount - 1, retired := page.retired || page.refcount == 1)
  }

  lemma ReleaseCounted(pages: map<nat, SharedPage>, refs: multiset<nat>, p: nat)
    requires Counted(pages, refs) && p in refs
    ensures p in pages && pages[p].refcount > 0 && !pages[p].retired
    ensures Counted(pages[p := Released(pages[p])], refs - multiset{p})
  {
  }

  /** The queue after one release. */
  function QueueAfter(retired: seq<RetiredPage>, page: SharedPage, generation: nat): seq<RetiredPage> {
    if page.refcount == 1 then retired + [RetiredPage(page.pageId, page.residentBytes, generation)] else retired
  }

  lemma ReleaseQueued(pages: map<nat, SharedPage>, retired: seq<RetiredPage>, p: nat, generation: nat)
    requires Queued(pages, retired) && p in pages && !pages[p].retired && pages[p].refcount > 0 && pages[p].pageId == p
    ensures Queued(pages[p := Released(pages[p])], QueueAfter(retired, pages[p], generation))
  {
    var next := pages[p := Released(pages[p])];
    var queue := QueueAfter(retired, pages[p], generation);
    forall q | q in next && next[q].retired
      ensures InQueue(queue, q)
    {
      if q == p {
        assert queue[|retired|].pageId == p;
      } else {
        assert InQueue(retired, q);
        var i :| 0 <= i < |retired| && retired[i].pageId == q;
        assert queue[i].pageId == q;
      }
    }
  }

  lemma QueueAfterBytes(retired: seq<RetiredPage>, page: SharedPage, generation: nat)
    ensures PendingBytes(QueueAfter(retired, page, generation))
         == PendingBytes(retired) + (if page.refcount == 1 then page.residentBytes else 0)
  {
    if page.refcount == 1 {
      var r := RetiredPage(page.pageId, page.residentBytes, generation);
      assert (retired + [r])[..|retired|] == retired;
    }
  }

  // ---- order --------------------------------------------------------------------------------

  ghost predicate PagesOrdered(refs: seq<PageRef>) {
    && (forall i :: 0 <= i < |refs| ==> refs[i].tokenCount > 0)
    && (forall i, j :: 0 <= i < j < |refs| ==> refs[i].End() <= refs[j].logicalBegin)
  }

  /** What the order check of a layer accepts. */
  ghost predicate Ordered(layer: Layer) {
    && PagesOrdered(layer.sealedPages)
    && (layer.sealedPages != [] && layer.activeCount > 0 ==>
          layer.sealedPages[|layer.sealedPages| - 1].End() <= layer.activeBegin)
  }

  lemma OrderedNext(refs: seq<PageRef>, i: nat)
    requires i < |refs| && PagesOrdered(refs[..i]) && refs[i].tokenCount > 0
    requires forall j :: 0 <= j < i ==> refs[j].End() <= refs[i].logicalBegin
    ensures PagesOrdered(refs[..i + 1])
  {
    var a, b := refs[..i], refs[..i + 1];
    assert forall j :: 0 <= j < i ==> b[j] == a[j];
  }

  /** The check itself: one pass over the pages, then the tail. */
  method ValidatePageOrder(layer: Layer) returns (ok: bool)
    ensures ok <==> Ordered(layer)
  {
    var end := 0;
    var refs := layer.sealedPages;
    for i := 0 to |refs|
      invariant PagesOrdered(refs[..i])
      invariant i > 0 ==> end == refs[i - 1].End()
      invariant forall j :: 0 <= j < i ==> refs[j].End() <= end
    {
      if refs[i].tokenCount == 0 || (i > 0 && refs[i].logicalBegin < end) {
        return false;
      }
      end := refs[i].End();
      OrderedNext(refs, i);
    }
    assert refs[..|refs|] == refs;
    ok := refs == [] || layer.activeCount == 0 || layer.activeBegin >= end;
  }

  // ---- copying a layer ------------------------------------------------------------------------

  function InRange(ref: PageRef, begin: nat, end: nat): bool {
    ref.logicalBegin >= begin && ref.End() <= end
  }

  /** The references that lie wholly inside the copied range. */
  function CopiedRefs(refs: seq<PageRef>, begin: nat, end: nat): seq<PageRef> {
    if refs == [] then []
    else
      var last := refs[|refs| - 1];
      CopiedRefs(refs[..|refs| - 1], begin, end) + (if InRange(last, begin, end) then [last] else [])
  }

  /** A layer of the copy: whole pages inside the range, and the tail if it is wholly inside. */
  function CopiedLayer(source: Layer, begin: nat, end: nat): Layer {
    var refs := CopiedRefs(source.sealedPages, begin, end);
    if source.activeCount > 0 && source.activeBegin >= begin && source.ActiveEnd() <= end
      then Layer(refs, source.activeBegin, source.activeCount, source.activeGeneration + 1,
                 source.descriptorGeneration + 1)
      else Layer(refs, 0, 0, 0, source.descriptorGeneration + 1)
  }

  function CopiedLayers(layers: seq<Layer>, begin: nat, end: nat): (r: seq<Layer>)
    ensures |r| == |layers| && forall i :: 0 <= i < |layers| ==> r[i] == CopiedLayer(layers[i], begin, end)
  {
    seq(|layers|, i requires 0 <= i < |layers| => CopiedLayer(layers[i], begin, end))
  }

  /** A copy is ordered when its source is: its pages are some of the source's, in the same order. */
  lemma {:induction false} CopiedOrdered(refs: seq<PageRef>, begin: nat, end: nat)
    requires PagesOrdered(refs)
    ensures PagesOrdered(CopiedRefs(refs, begin, end))
    ensures forall i :: 0 <= i < |CopiedRefs(refs, begin, end)| ==> CopiedRefs(refs, begin, end)[i] in refs
  {
    if refs != [] {
      var init, last := refs[..|refs| - 1], refs[|refs| - 1];
      CopiedOrdered(init, begin, end);
      forall i | 0 <= i < |CopiedRefs(init, begin, end)|
        ensures CopiedRefs(init, begin, end)[i].End() <= last.logicalBegin
      {
        assert CopiedRefs(init, begin, end)[i] in init;
      }
    }
  }

  // ---- removing a range from a layer ----------------------------------------------------------

  predicate Outside(ref: PageRef, begin: int, end: int) {
    ref.End() <= begin || ref.logicalBegin >= end
  }

  /** The range ends or starts inside the page. */
  predicate Cuts(ref: PageRef, begin: int, end: int) {
    !Outside(ref, begin, end) && (begin > ref.logicalBegin || end < ref.End())
  }

  function KeptRefs(refs: seq<PageRef>, begin: int, end: int): seq<PageRef> {
    if refs == [] then []
    else
      var last := refs[|refs| - 1];
      KeptRefs(refs[..|refs| - 1], begin, end) + (if Outside(last, begin, end) then [last] else [])
  }

  function GoneIds(refs: seq<PageRef>, begin: int, end: int): seq<nat> {
    if refs == [] then []
    else
      var last := refs[|refs| - 1];
      GoneIds(refs[..|refs| - 1], begin, end) + (if Outside(last, begin, end) then [] else [last.pageId])
  }

  /** What the range does to the tail: nothing, shorten it, or refuse. */
  datatype TailCut = Tail(count: nat) | Refused

  function CutTail(layer: Layer, begin: int, end: int): TailCut {
    if begin <= layer.activeBegin && end >= layer.ActiveEnd() then Tail(0)
    else if layer.activeBegin <= begin < layer.ActiveEnd() && end >= layer.ActiveEnd() then
      Tail(begin - layer.activeBegin)
    else if end > layer.activeBegin && begin < layer.ActiveEnd() then Refused
    else Tail(layer.activeCount)
  }

  /** The range can be removed from the layer. */
  ghost predicate Removable(layer: Layer, begin: int, end: int) {
    && (forall i :: 0 <= i < |layer.sealedPages| ==> !Cuts(layer.sealedPages[i], begin, end))
    && CutTail(layer, begin, end) != Refused
  }

  /** How many references come before the first one the range cuts: all of them if it cuts none. */
  function UntilCut(refs: seq<PageRef>, begin: int, end: int): (i: nat)
    ensures i <= |refs| && (i < |refs| ==> Cuts(refs[i], begin, end))
    ensures forall j :: 0 <= j < i ==> !Cuts(refs[j], begin, end)
  {
    if refs == [] then 0
    else
      var i := UntilCut(refs[..|refs| - 1], begin, end);
      if i < |refs| - 1 || Cuts(refs[|refs| - 1], begin, end) then i else i + 1
  }

  /** The pages a removal releases before it finds that it cuts one: the layer still refers to them. */
  function LostIds(refs: seq<PageRef>, begin: int, end: int): seq<nat> {
    if UntilCut(refs, begin, end) == |refs| then [] else GoneIds(refs[..UntilCut(refs, begin, end)], begin, end)
  }

  ghost function RemovedLayer(layer: Layer, begin: int, end: int): Layer
    requires Removable(layer, begin, end)
  {
    layer.(sealedPages := KeptRefs(layer.sealedPages, begin, end), activeCount := CutTail(layer, begin, end).count,
           descriptorGeneration := layer.descriptorGeneration + 1)
  }

  /** The layers once the first l of them are done. */
  ghost function RemovedUpTo(layers: seq<Layer>, l: nat, begin: int, end: int): (r: seq<Layer>)
    requires l <= |layers| && forall i :: 0 <= i < l ==> Removable(layers[i], begin, end)
    ensures |r| == |layers|
  {
    seq(|layers|, i requires 0 <= i < |layers| =>
      if i < l then RemovedLayer(layers[i], begin, end) else layers[i])
  }

  /** Layer l is the first whose range cannot be removed. */
  ghost predicate StuckAt(layers: seq<Layer>, l: nat, begin: int, end: int) {
    && l < |layers| && !Removable(layers[l], begin, end)
    && forall i :: 0 <= i < l ==> Removable(layers[i], begin, end)
  }

  /** What a stuck removal leaves: the layers before are done; the stuck one has lost its pages only if none is cut. */
  ghost function StuckLayers(layers: seq<Layer>, l: nat, begin: int, end: int): seq<Layer>
    requires StuckAt(layers, l, begin, end)
  {
    var refs := layers[l].sealedPages;
    RemovedUpTo(layers, l, begin, end)[l :=
      if UntilCut(refs, begin, end) < |refs| then layers[l] else layers[l].(sealedPages := KeptRefs(refs, begin, end))]
  }

  /** A range can fail on a page after releasing another: pages [0,4) and [4,8), removing [0,6). */
  lemma RemovalLosesPages()
    ensures LostIds([PageRef(7, 0, 4), PageRef(8, 4, 4)], 0, 6) == [7]
  {
    var refs := [PageRef(7, 0, 4), PageRef(8, 4, 4)];
    assert refs[..1] == [PageRef(7, 0, 4)] && refs[..1][..0] == [];
    assert UntilCut(refs[..1], 0, 6) == 1;
    assert GoneIds(refs[..1], 0, 6) == [7];
  }

  /** Kept and released references together are the references there were. */
  lemma {:induction false} KeptAndGone(refs: seq<PageRef>, begin: int, end: int)
    ensures multiset(LayerIds(refs))
         == multiset(LayerIds(KeptRefs(refs, begin, end))) + multiset(GoneIds(refs, begin, end))
  {
    hide LayerIds, KeptRefs, GoneIds;
    if refs != [] {
      var n := |refs| - 1;
      KeptAndGone(refs[..n], begin, end);
      LastKept(refs, begin, end);
      LayerIdsNext(refs[..n], refs[n]);
      LayerIdsNext(KeptRefs(refs[..n], begin, end), refs[n]);
      assert refs == refs[..n] + [refs[n]];
    } else {
      NoneKept(begin, end);
    }
  }

  lemma LastKept(refs: seq<PageRef>, begin: int, end: int)
    requires refs != []
    ensures var init, last := refs[..|refs| - 1], refs[|refs| - 1];
            if Outside(last, begin, end)
            then KeptRefs(refs, begin, end) == KeptRefs(init, begin, end) + [last]
                 && GoneIds(refs, begin, end) == GoneIds(init, begin, end)
            else KeptRefs(refs, begin, end) == KeptRefs(init, begin, end)
                 && GoneIds(refs, begin, end) == GoneIds(init, begin, end) + [last.pageId]
  {
  }

  lemma NoneKept(begin: int, end: int)
    ensures LayerIds([]) == [] && KeptRefs([], begin, end) == [] && GoneIds([], begin, end) == []
  {
  }

  lemma LayerIdsNext(refs: seq<PageRef>, ref: PageRef)
    ensures LayerIds(refs + [ref]) == LayerIds(refs) + [ref.pageId]
  {
  }

  lemma {:induction false} KeptOrdered(refs: seq<PageRef>, begin: int, end: int)
    requires PagesOrdered(refs)
    ensures PagesOrdered(KeptRefs(refs, begin, end))
    ensures forall i :: 0 <= i < |KeptRefs(refs, begin, end)| ==> KeptRefs(refs, begin, end)[i] in refs
  {
    if refs != [] {
      var init, last := refs[..|refs| - 1], refs[|refs| - 1];
      KeptOrdered(init, begin, end);
      forall i | 0 <= i < |KeptRefs(init, begin, end)|
        ensures KeptRefs(init, begin, end)[i].End() <= last.logicalBegin
      {
        assert KeptRefs(init, begin, end)[i] in init;
      }
    }
  }

  lemma LastEnd(refs: seq<PageRef>, ref: PageRef)
    requires PagesOrdered(refs) && ref in refs
    ensures ref.End() <= refs[|refs| - 1].End()
  {
  }

  /** Removing keeps a layer in order. */
  lemma RemovedOrdered(layer: Layer, begin: int, end: int)
    requires Ordered(layer) && Removable(layer, begin, end)
    ensures Ordered(RemovedLayer(layer, begin, end))
  {
    KeptOrdered(layer.sealedPages, begin, end);
    var kept := KeptRefs(layer.sealedPages, begin, end);
    if kept != [] {
      LastEnd(layer.sealedPages, kept[|kept| - 1]);
    }
  }

  lemma CopiedLayerOrdered(layer: Layer, begin: nat, end: nat)
    requires Ordered(layer)
    ensures Ordered(CopiedLayer(layer, begin, end))
  {
    CopiedOrdered(layer.sealedPages, begin, end);
    var refs := CopiedRefs(layer.sealedPages, begin, end);
    if refs != [] {
      LastEnd(layer.sealedPages, refs[|refs| - 1]);
    }
  }

  // ---- shifting a layer -------------------------------------------------------------------------

  predicate Straddles(ref: PageRef, begin: nat, end: nat) {
    !InRange(ref, begin, end) && ref.logicalBegin < end && ref.End() > begin
  }

  /** The page is wholly inside or outside the range, and does not move below zero. */
  predicate Movable(ref: PageRef, begin: nat, end: nat, delta: int) {
    !Straddles(ref, begin, end) && (InRange(ref, begin, end) ==> ref.logicalBegin + delta >= 0)
  }

  /** Every page can move, and so can the tail. */
  ghost predicate Shiftable(layer: Layer, begin: nat, end: nat, delta: int) {
    && (forall i :: 0 <= i < |layer.sealedPages| ==> Movable(layer.sealedPages[i], begin, end, delta))
    && (TailInRange(layer, begin, end) ==> layer.activeBegin + delta >= 0)
  }

  predicate TailInRange(layer: Layer, begin: nat, end: nat) {
    layer.activeCount > 0 && layer.activeBegin >= begin && layer.ActiveEnd() <= end
  }

  function ShiftedRef(ref: PageRef, begin: nat, end: nat, delta: int): PageRef
    requires Movable(ref, begin, end, delta)
  {
    if InRange(ref, begin, end) then ref.(logicalBegin := (ref.logicalBegin + delta) % UINT32) else ref
  }

  ghost function ShiftedLayer(layer: Layer, begin: nat, end: nat, delta: int): Layer
    requires Shiftable(layer, begin, end, delta)
  {
    layer.(sealedPages := seq(|layer.sealedPages|,
             i requires 0 <= i < |layer.sealedPages| => ShiftedRef(layer.sealedPages[i], begin, end, delta)),
           activeBegin :=
             if TailInRange(layer, begin, end) then (layer.activeBegin + delta) % UINT32 else layer.activeBegin,
           descriptorGeneration := layer.descriptorGeneration + 1)
  }

  /** The range can be moved, and the pages are still in order afterwards. */
  ghost predicate Moves(layer: Layer, begin: nat, end: nat, delta: int) {
    Shiftable(layer, begin, end, delta) && Ordered(ShiftedLayer(layer, begin, end, delta))
  }

  /** How many references come before the first that cannot move: all of them if all can. */
  function UntilStuck(refs: seq<PageRef>, begin: nat, end: nat, delta: int): (i: nat)
    ensures i <= |refs| && (i < |refs| ==> !Movable(refs[i], begin, end, delta))
    ensures forall j :: 0 <= j < i ==> Movable(refs[j], begin, end, delta)
  {
    if refs == [] then 0
    else
      var i := UntilStuck(refs[..|refs| - 1], begin, end, delta);
      if i < |refs| - 1 || !Movable(refs[|refs| - 1], begin, end, delta) then i else i + 1
  }

  /** What a shift leaves of a layer it cannot finish: the references before the first that cannot move have moved; so
      has the tail if all of them could and it could. */
  ghost function HalfShifted(layer: Layer, begin: nat, end: nat, delta: int): Layer {
    var refs := layer.sealedPages;
    var k := UntilStuck(refs, begin, end, delta);
    layer.(sealedPages := seq(|refs|,
             i requires 0 <= i < |refs| => if i < k then ShiftedRef(refs[i], begin, end, delta) else refs[i]),
           activeBegin := if k == |refs| && TailInRange(layer, begin, end) && layer.activeBegin + delta >= 0
                          then (layer.activeBegin + delta) % UINT32 else layer.activeBegin)
  }

  lemma UntilStuckIs(refs: seq<PageRef>, i: nat, begin: nat, end: nat, delta: int)
    requires i <= |refs| && (i < |refs| ==> !Movable(refs[i], begin, end, delta))
    requires forall j :: 0 <= j < i ==> Movable(refs[j], begin, end, delta)
    ensures UntilStuck(refs, begin, end, delta) == i
  {
  }

  /** Shifts one layer; what it shifted before a failure stays shifted. */
  method ShiftLayer(layer: Layer, begin: nat, end: nat, delta: int) returns (ok: bool, next: Layer)
    ensures ok <==> Moves(layer, begin, end, delta)
    ensures next == if Moves(layer, begin, end, delta) then ShiftedLayer(layer, begin, end, delta)
                    else HalfShifted(layer, begin, end, delta)
    ensures |next.sealedPages| == |layer.sealedPages|
    ensures forall i :: 0 <= i < |layer.sealedPages| ==> next.sealedPages[i].pageId == layer.sealedPages[i].pageId
  {
    hide Ordered, PagesOrdered, UntilStuck;
    next := layer;
    var refs := layer.sealedPages;
    for i := 0 to |refs|
      invariant |next.sealedPages| == |refs| && next == layer.(sealedPages := next.sealedPages)
      invariant forall j :: i <= j < |refs| ==> next.sealedPages[j] == refs[j]
      invariant forall j :: 0 <= j < i ==>
        Movable(refs[j], begin, end, delta) && next.sealedPages[j] == ShiftedRef(refs[j], begin, end, delta)
    {
      var ref := refs[i];
      if ref.logicalBegin >= begin && ref.End() <= end {
        var shifted := ref.logicalBegin + delta;
        if shifted < 0 {
          UntilStuckIs(refs, i, begin, end, delta);
          return false, next;
        }
        next := next.(sealedPages := next.sealedPages[i := ref.(logicalBegin := shifted % UINT32)]);
      } else if ref.logicalBegin < end && ref.End() > begin {
        UntilStuckIs(refs, i, begin, end, delta);
        return false, next;
      }
    }
    UntilStuckIs(refs, |refs|, begin, end, delta);
    if layer.activeCount > 0 && layer.activeBegin >= begin && layer.ActiveEnd() <= end {
      var shifted := layer.activeBegin + delta;
      if shifted < 0 {
        return false, next;
      }
      next := next.(activeBegin := shifted % UINT32);
    }
    ok := ValidatePageOrder(next);
    assert Shiftable(layer, begin, end, delta);
    OrderOfPages(next, ShiftedLayer(layer, begin, end, delta));
    if ok {
      next := next.(descriptorGeneration := next.descriptorGeneration + 1);
    }
  }

  lemma OrderOfPages(a: Layer, b: Layer)
    requires a.sealedPages == b.sealedPages && a.activeBegin == b.activeBegin && a.activeCount == b.activeCount
    ensures Ordered(a) <==> Ordered(b)
  {
  }

  /** The layers once the first l of them have moved. */
  ghost function ShiftedUpTo(layers: seq<Layer>, l: nat, begin: nat, end: nat, delta: int): (r: seq<Layer>)
    requires l <= |layers| && forall i :: 0 <= i < l ==> Moves(layers[i], begin, end, delta)
    ensures |r| == |layers|
  {
    seq(|layers|, i requires 0 <= i < |layers| => 
      if i < l then assert Moves(layers[i], begin, end, delta); ShiftedLayer(layers[i], begin, end, delta)
      else layers[i])
  }

  // ---- references of a copy -----------------------------------------------------------------------

  lemma {:induction false} CopiedRefsIn(refs: seq<PageRef>, begin: nat, end: nat, p: nat)
    requires p in LayerIds(CopiedRefs(refs, begin, end))
    ensures p in LayerIds(refs)
  {
    var last := refs[|refs| - 1];
    assert LayerIds(refs) == LayerIds(refs[..|refs| - 1]) + [last.pageId];
    var kept := CopiedRefs(refs[..|refs| - 1], begin, end);
    if p in LayerIds(kept) {
      CopiedRefsIn(refs[..|refs| - 1], begin, end, p);
    } else {
      assert LayerIds(CopiedRefs(refs, begin, end))
           == LayerIds(kept) + (if InRange(last, begin, end) then [last.pageId] else []);
    }
  }

  lemma {:induction false} LayerIdsIn(layers: seq<Layer>, i: nat, p: nat)
    requires i < |layers| && p in LayerIds(layers[i].sealedPages)
    ensures p in SequenceIds(layers)
  {
    hide LayerIds;
    if i < |layers| - 1 {
      LayerIdsIn(layers[..|layers| - 1], i, p);
    }
  }

  /** The layers of a sequence hold references only to pages of the whole. */
  lemma SequenceIdsIn(sequences: map<int, Sequence>, id: int, p: nat)
    requires id in sequences && p in SequenceIds(sequences[id].layers)
    ensures p in References(sequences)
  {
    hide SequenceIds;
    ReferencesWithout(sequences, id);
    assert p in multiset(SequenceIds(sequences[id].layers));
  }

  /** The pages with extra references. */
  function Bumped(pages: map<nat, SharedPage>, extra: multiset<nat>): (r: map<nat, SharedPage>)
    ensures r.Keys == pages.Keys
  {
    map p | p in pages :: pages[p].(refcount := pages[p].refcount + extra[p])
  }

  lemma BumpedNone(pages: map<nat, SharedPage>)
    ensures Bumped(pages, multiset{}) == pages
  {
  }

  lemma BumpedNext(pages: map<nat, SharedPage>, extra: multiset<nat>, p: nat)
    requires p in pages
    ensures Bumped(pages, extra)[p := Acquired(Bumped(pages, extra)[p])] == Bumped(pages, extra + multiset{p})
  {
  }

  lemma BumpedBack(pages: map<nat, SharedPage>, extra: multiset<nat>, p: nat)
    requires p in pages && p in extra && pages[p].refcount > 0
    ensures Bumped(pages, extra)[p := Released(Bumped(pages, extra)[p])] == Bumped(pages, extra - multiset{p})
    ensures Bumped(pages, extra)[p].refcount > 1
  {
  }

  /** Extra references to live pages keep the books, as long as no count overflows. */
  lemma BumpedCounted(pages: map<nat, SharedPage>, refs: multiset<nat>, extra: multiset<nat>)
    requires Counted(pages, refs)
    requires forall p :: p in extra ==> p in refs
    requires forall p :: p in pages ==> pages[p].refcount + extra[p] < UINT32
    ensures Counted(Bumped(pages, extra), refs + extra)
  {
  }

  lemma BumpedQueued(pages: map<nat, SharedPage>, retired: seq<RetiredPage>, extra: multiset<nat>)
    requires Queued(pages, retired)
    ensures Queued(Bumped(pages, extra), retired)
  {
    var next := Bumped(pages, extra);
    forall p | p in next && next[p].retired
      ensures InQueue(retired, p)
    {
      assert pages[p].retired;
    }
  }

  lemma CountOf(pages: map<nat, SharedPage>, refs: multiset<nat>, p: nat)
    requires Counted(pages, refs)
    ensures refs[p] == if p in pages && !pages[p].retired then pages[p].refcount else 0
  {
  }

  /** The books fit one set of references only: what was lost cannot be hidden. */
  lemma CountedUnique(pages: map<nat, SharedPage>, refs: multiset<nat>, lost: multiset<nat>)
    requires lost <= refs && Counted(pages, refs - lost) && Counted(pages, refs)
    ensures lost == multiset{}
  {
    hide Counted;
    forall p
      ensures lost[p] == 0
    {
      CountOf(pages, refs, p);
      CountOf(pages, refs - lost, p);
    }
  }

  // ---- the active tail --------------------------------------------------------------------------

  datatype LayerStep = Next(layer: Layer) | NotContiguous | Overfull

  /** Appending n tokens at a position, in 32-bit arithmetic. */
  function AppendLayer(layer: Layer, tokenBegin: nat, n: nat, pageSize: nat): LayerStep {
    if layer.activeCount > 0 && tokenBegin != (layer.activeBegin + layer.activeCount) % UINT32 then NotContiguous
    else if (layer.activeCount + n) % UINT32 > pageSize then Overfull
    else Next(layer.(activeBegin := if layer.activeCount == 0 then tokenBegin else layer.activeBegin,
                     activeCount := (layer.activeCount + n) % UINT32,
                     activeGeneration := layer.activeGeneration + 1))
  }

  function WithCount(layer: Layer, count: nat): Layer {
    layer.(activeCount := count, activeGeneration := layer.activeGeneration + 1)
  }

  /** A speculation that began at this baseline can keep this many of the tokens appended since. */
  predicate Committable(layer: Layer, baseline: nat, accepted: nat) {
    baseline <= layer.activeCount && accepted <= layer.activeCount - baseline
  }

  /** The layers once the first l of them have this count. */
  function WithCountUpTo(layers: seq<Layer>, l: nat, count: nat): (r: seq<Layer>)
    requires l <= |layers|
    ensures |r| == |layers|
    ensures forall i :: 0 <= i < |layers| ==> r[i] == if i < l then WithCount(layers[i], count) else layers[i]
  {
    seq(|layers|, i requires 0 <= i < |layers| => if i < l then WithCount(layers[i], count) else layers[i])
  }

  /** The longest tail of a sequence: the baseline of a speculation. */
  function LongestTail(layers: seq<Layer>): (m: nat)
    ensures forall i :: 0 <= i < |layers| ==> layers[i].activeCount <= m
    ensures m == 0 || exists i :: 0 <= i < |layers| && layers[i].activeCount == m
  {
    if layers == [] then 0
    else
      var m := LongestTail(layers[..|layers| - 1]);
      if layers[|layers| - 1].activeCount > m then layers[|layers| - 1].activeCount else m
  }
}
