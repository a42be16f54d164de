/** How a cache's page books follow its sequences: the references of a copy, a release, a removal. */
module CacheBooks {
  import opened Common
  import opened CacheModel

  const EMPTY_LAYER: Layer := Layer([], 0, 0, 0, 0)

  /** Adding these references overflows no count. */
  ghost predicate FitsCounts(pages: map<nat, SharedPage>, extra: multiset<nat>) {
    forall p :: p in pages ==> pages[p].refcount + extra[p] < UINT32
  }

  function NewSequence(id: int, layerCount: nat, generation: nat): Sequence {
    Sequence(id, seq(layerCount, _ => EMPTY_LAYER), generation, 0, NO_SPECULATION)
  }

  lemma NewSequenceEmpty(id: int, layerCount: nat, generation: nat)
    ensures var s := NewSequence(id, layerCount, generation);
            s.id == id && |s.layers| == layerCount && SequenceIds(s.layers) == [] && LayersOrdered(s.layers)
  {
    EmptyLayers(NewSequence(id, layerCount, generation).layers);
  }

  lemma {:induction false} EmptyLayers(layers: seq<Layer>)
    requires forall i :: 0 <= i < |layers| ==> layers[i] == EMPTY_LAYER
    ensures SequenceIds(layers) == [] && LayersOrdered(layers)
  {
    if layers != [] {
      EmptyLayers(layers[..|layers| - 1]);
    }
  }

  /** A sequence without pages adds no references. */
  lemma AddUnreferenced(sequences: map<int, Sequence>, id: int, s: Sequence)
    requires id !in sequences && SequenceIds(s.layers) == []
    ensures References(sequences[id := s]) == References(sequences)
  {
    hide References, SequenceIds;
    ReferencesUpdate(sequences, id, s);
    assert sequences - {id} == sequences;
  }

  lemma NoLayerIds()
    ensures SequenceIds([]) == []
  {
  }

  lemma NoCopiedRefs(begin: nat, end: nat)
    ensures CopiedRefs([], begin, end) == [] && LayerIds([]) == []
  {
  }

  lemma CopiedNext(refs: seq<PageRef>, i: nat, begin: nat, end: nat)
    requires i < |refs|
    ensures CopiedRefs(refs[..i + 1], begin, end)
         == if InRange(refs[i], begin, end) then CopiedRefs(refs[..i], begin, end) + [refs[i]]
           else CopiedRefs(refs[..i], begin, end)
    ensures LayerIds(CopiedRefs(refs[..i], begin, end) + [refs[i]])
         == LayerIds(CopiedRefs(refs[..i], begin, end)) + [refs[i].pageId]
  {
    assert refs[..i + 1][..i] == refs[..i];
  }

  lemma LayerIdsAt(refs: seq<PageRef>, i: nat)
    requires i < |refs|
    ensures refs[i].pageId in LayerIds(refs)
  {
    assert LayerIds(refs)[i] == refs[i].pageId;
  }

  lemma BumpedAt(base: map<nat, SharedPage>, extra: multiset<nat>, p: nat)
    requires p in base
    ensures Bumped(base, extra)[p] == base[p].(refcount := base[p].refcount + extra[p])
  {
  }

  lemma CountsNext(base: map<nat, SharedPage>, extra: multiset<nat>, p: nat)
    requires FitsCounts(base, extra) && p in base && base[p].refcount + extra[p] != UINT32 - 1
    ensures FitsCounts(base, extra + multiset{p})
  {
  }

  lemma NothingFits(base: map<nat, SharedPage>)
    requires forall p :: p in base ==> base[p].refcount < UINT32
    ensures FitsCounts(base, multiset{})
  {
  }

  /** Having acquired these, reference i of the layer is wanted too and would overflow its count. */
  ghost predicate Overflows(refs: seq<PageRef>, i: nat, begin: nat, end: nat, before: seq<nat>, acquired: seq<nat>,
                            base: map<nat, SharedPage>)
    requires i < |refs|
  {
    && InRange(refs[i], begin, end) && acquired == before + LayerIds(CopiedRefs(refs[..i], begin, end))
    && refs[i].pageId in base && base[refs[i].pageId].refcount + multiset(acquired)[refs[i].pageId] + 1 >= UINT32
  }

  /** The references of a copy begin with those acquired before the one that overflows, and it is next. */
  lemma OverflowNext(source: seq<Layer>, all: seq<Layer>, l: nat, i: nat, begin: nat, end: nat, acquired: seq<nat>)
    returns (rest: seq<nat>)
    requires l < |source| && all == CopiedLayers(source, begin, end) && i < |source[l].sealedPages|
    requires InRange(source[l].sealedPages[i], begin, end)
    requires acquired == SequenceIds(all[..l]) + LayerIds(CopiedRefs(source[l].sealedPages[..i], begin, end))
    ensures SequenceIds(all) == acquired + ([source[l].sealedPages[i].pageId] + rest)
  {
    hide SequenceIds, LayerIds, CopiedRefs;
    var refs := source[l].sealedPages;
    CopiedNext(refs, i, begin, end);
    CopiedPrefix(refs, i + 1, begin, end);
    SequenceIdsNext(all, l);
    SequencePrefix(all, l + 1);
    var layer :| LayerIds(CopiedRefs(refs, begin, end)) == LayerIds(CopiedRefs(refs[..i + 1], begin, end)) + layer;
    var more :| SequenceIds(all) == SequenceIds(all[..l + 1]) + more;
    rest := layer + more;
  }

  lemma CountOfNext(a: seq<nat>, p: nat, rest: seq<nat>)
    ensures multiset(a + ([p] + rest))[p] >= multiset(a)[p] + 1
  {
  }

  /** When the next acquisition overflows, the whole copy would; everything acquired so far is held by the source. */
  lemma TooMany(base: map<nat, SharedPage>, source: seq<Layer>, all: seq<Layer>, l: nat, begin: nat, end: nat,
                before: seq<nat>, acquired: seq<nat>)
    requires l < |source| && all == CopiedLayers(source, begin, end) && before == SequenceIds(all[..l])
    requires exists i :: 0 <= i < |source[l].sealedPages|
                      && Overflows(source[l].sealedPages, i, begin, end, before, acquired, base)
    ensures !FitsCounts(base, multiset(SequenceIds(all)))
    ensures forall p :: p in acquired ==> p in SequenceIds(source)
  {
    hide SequenceIds, LayerIds, CopiedRefs, CopiedLayers;
    var refs := source[l].sealedPages;
    var i :| 0 <= i < |refs| && Overflows(refs, i, begin, end, before, acquired, base);
    var rest := OverflowNext(source, all, l, i, begin, end, acquired);
    CountOfNext(acquired, refs[i].pageId, rest);
    forall p | p in acquired
      ensures p in SequenceIds(source)
    {
      CopiedIdsIn(source, begin, end, p);
    }
  }

  lemma {:induction false} CopiedPrefix(refs: seq<PageRef>, i: nat, begin: nat, end: nat)
    requires i <= |refs|
    ensures exists rest :: LayerIds(CopiedRefs(refs, begin, end)) == LayerIds(CopiedRefs(refs[..i], begin, end)) + rest
    decreases |refs|
  {
    var whole := LayerIds(CopiedRefs(refs, begin, end));
    if i == |refs| {
      assert refs[..i] == refs;
      assert whole == whole + [];
    } else {
      var n := |refs| - 1;
      CopiedPrefix(refs[..n], i, begin, end);
      assert refs[..n][..i] == refs[..i];
      var rest :| LayerIds(CopiedRefs(refs[..n], begin, end)) == LayerIds(CopiedRefs(refs[..i], begin, end)) + rest;
      CopiedNext(refs, n, begin, end);
      assert refs[..n + 1] == refs;
      if InRange(refs[n], begin, end) {
        assert whole == LayerIds(CopiedRefs(refs[..i], begin, end)) + (rest + [refs[n].pageId]);
      }
    }
  }

  lemma {:induction false} SequencePrefix(layers: seq<Layer>, l: nat)
    requires l <= |layers|
    ensures exists more :: SequenceIds(layers) == SequenceIds(layers[..l]) + more
    decreases |layers|
  {
    hide LayerIds;
    if l == |layers| {
      assert layers[..l] == layers;
      assert SequenceIds(layers) == SequenceIds(layers) + [];
    } else {
      var n := |layers| - 1;
      SequencePrefix(layers[..n], l);
      assert layers[..n][..l] == layers[..l];
      var more :| SequenceIds(layers[..n]) == SequenceIds(layers[..l]) + more;
      assert SequenceIds(layers) == SequenceIds(layers[..l]) + (more + LayerIds(layers[n].sealedPages));
    }
  }

  lemma ReleaseLayerShare(layers: seq<Layer>, l: nat, refs: multiset<nat>)
    requires l < |layers| && multiset(SequenceIds(layers)) <= refs
    ensures multiset(LayerIds(layers[l].sealedPages)) <= refs - multiset(SequenceIds(layers[..l]))
    ensures refs - multiset(SequenceIds(layers[..l])) - multiset(LayerIds(layers[l].sealedPages))
         == refs - multiset(SequenceIds(layers[..l + 1]))
  {
    hide SequenceIds, LayerIds;
    SequenceIdsNext(layers, l);
    SequencePrefix(layers, l + 1);
    var more :| SequenceIds(layers) == SequenceIds(layers[..l + 1]) + more;
    assert multiset(SequenceIds(layers))
         == multiset(SequenceIds(layers[..l])) + multiset(LayerIds(layers[l].sealedPages)) + multiset(more);
  }

  /** Every page a live sequence refers to is live and counted. */
  lemma SourceHeld(pages: map<nat, SharedPage>, sequences: map<int, Sequence>, id: int)
    requires Counted(pages, References(sequences)) && id in sequences
    ensures forall p :: p in SequenceIds(sequences[id].layers) ==>
      p in pages && pages[p].refcount > 0 && !pages[p].retired
    ensures forall p :: p in pages ==> pages[p].refcount < UINT32
  {
    hide References, SequenceIds;
    forall p | p in SequenceIds(sequences[id].layers)
      ensures p in pages && pages[p].refcount > 0 && !pages[p].retired
    {
      SequenceIdsIn(sequences, id, p);
    }
  }

  lemma {:induction false} CopiedIdsIn(layers: seq<Layer>, begin: nat, end: nat, p: nat)
    requires p in SequenceIds(CopiedLayers(layers, begin, end))
    ensures p in SequenceIds(layers)
  {
    hide LayerIds, CopiedRefs;
    var n := |layers| - 1;
    assert CopiedLayers(layers, begin, end)[..n] == CopiedLayers(layers[..n], begin, end);
    if p in SequenceIds(CopiedLayers(layers[..n], begin, end)) {
      CopiedIdsIn(layers[..n], begin, end, p);
    } else {
      CopiedRefsIn(layers[n].sealedPages, begin, end, p);
    }
  }

  /** After every acquisition of a copy the books balance for the candidate too. */
  lemma CopyCounted(base: map<nat, SharedPage>, retired: seq<RetiredPage>, sequences: map<int, Sequence>, id: int,
                    begin: nat, end: nat)
    requires Counted(base, References(sequences)) && Queued(base, retired) && id in sequences
    requires FitsCounts(base, multiset(SequenceIds(CopiedLayers(sequences[id].layers, begin, end))))
    ensures var extra := multiset(SequenceIds(CopiedLayers(sequences[id].layers, begin, end)));
            Counted(Bumped(base, extra), References(sequences) + extra) && Queued(Bumped(base, extra), retired)
  {
    hide References, SequenceIds, Counted, Queued, Bumped;
    var ids := SequenceIds(CopiedLayers(sequences[id].layers, begin, end));
    forall p | p in multiset(ids)
      ensures p in References(sequences)
    {
      CopiedIdsIn(sequences[id].layers, begin, end, p);
      SequenceIdsIn(sequences, id, p);
    }
    BumpedCounted(base, References(sequences), multiset(ids));
    BumpedQueued(base, retired, multiset(ids));
  }

  lemma ExchangeReferences(others: multiset<nat>, old_: multiset<nat>, new_: multiset<nat>)
    ensures old_ <= others + old_ + new_
    ensures others + old_ + new_ - old_ == others + new_
  {
  }

  lemma CopiedLayersOrdered(layers: seq<Layer>, begin: nat, end: nat)
    ensures LayersOrdered(layers) ==> LayersOrdered(CopiedLayers(layers, begin, end))
  {
    hide Ordered, CopiedLayer;
    if LayersOrdered(layers) {
      forall i | 0 <= i < |layers|
        ensures Ordered(CopiedLayers(layers, begin, end)[i])
      {
        CopiedLayerOrdered(layers[i], begin, end);
      }
    }
  }

  ghost predicate LayersOrdered(layers: seq<Layer>) {
    forall i :: 0 <= i < |layers| ==> Ordered(layers[i])
  }

  lemma NoReferences()
    ensures References(map[]) == multiset{}
  {
  }

  lemma PageKey(pages: map<nat, SharedPage>, refs: multiset<nat>, p: nat)
    requires Counted(pages, refs) && p in refs
    ensures p in pages && pages[p].pageId == p
  {
  }

  lemma TakeNext(ids: seq<nat>, i: nat, refs: multiset<nat>)
    requires i < |ids| && multiset(ids) <= refs
    ensures ids[i] in refs - multiset(ids[..i])
    ensures refs - multiset(ids[..i]) - multiset{ids[i]} == refs - multiset(ids[..i + 1])
  {
    assert ids[..i + 1] == ids[..i] + [ids[i]];
    assert ids == ids[..i] + ids[i..];
    assert ids[i..][0] == ids[i];
    assert ids[i] in multiset(ids[i..]);
  }

  lemma SequenceIdsNext(layers: seq<Layer>, l: nat)
    requires l < |layers|
    ensures SequenceIds(layers[..l + 1]) == SequenceIds(layers[..l]) + LayerIds(layers[l].sealedPages)
  {
    assert layers[..l + 1][..l] == layers[..l];
  }

  lemma LayerPrefixIn(layers: seq<Layer>, l: nat)
    requires l < |layers|
    ensures forall p :: p in LayerIds(layers[l].sealedPages) ==> p in SequenceIds(layers)
  {
    forall p | p in LayerIds(layers[l].sealedPages)
      ensures p in SequenceIds(layers)
    {
      LayerIdsIn(layers, l, p);
    }
  }

  // ---- editing one layer ------------------------------------------------------------------------

  lemma SequenceIdsLast(layers: seq<Layer>)
    requires layers != []
    ensures multiset(SequenceIds(layers))
         == multiset(SequenceIds(layers[..|layers| - 1])) + multiset(LayerIds(layers[|layers| - 1].sealedPages))
  {
  }

  lemma {:induction false} SequenceIdsUpdate(layers: seq<Layer>, l: nat, next: Layer)
    requires l < |layers|
    ensures multiset(SequenceIds(layers[l := next])) + multiset(LayerIds(layers[l].sealedPages))
         == multiset(SequenceIds(layers)) + multiset(LayerIds(next.sealedPages))
  {
    hide LayerIds, SequenceIds;
    var n := |layers| - 1;
    SequenceIdsLast(layers);
    SequenceIdsLast(layers[l := next]);
    if l < n {
      SequenceIdsUpdate(layers[..n], l, next);
      assert layers[l := next][..n] == layers[..n][l := next];
      Balance(multiset(SequenceIds(layers[..n])), multiset(SequenceIds(layers[..n][l := next])),
              multiset(LayerIds(layers[n].sealedPages)),
              multiset(LayerIds(layers[l].sealedPages)), multiset(LayerIds(next.sealedPages)));
    } else {
      assert layers[l := next][..n] == layers[..n];
    }
  }

  lemma Balance(whole: multiset<nat>, whole': multiset<nat>, rest: multiset<nat>, part: multiset<nat>,
                part': multiset<nat>)
    requires whole' + part == whole + part'
    ensures whole' + rest + part == whole + rest + part'
  {
    assert whole' + rest + part == whole' + part + rest;
    assert whole + rest + part' == whole + part' + rest;
  }

  lemma {:induction false} LayerIdsWithin(layers: seq<Layer>, l: nat)
    requires l < |layers|
    ensures multiset(LayerIds(layers[l].sealedPages)) <= multiset(SequenceIds(layers))
  {
    hide LayerIds;
    if l < |layers| - 1 {
      LayerIdsWithin(layers[..|layers| - 1], l);
    }
  }

  lemma TakeAway(whole: multiset<nat>, whole': multiset<nat>, part: multiset<nat>, part': multiset<nat>,
                 gone: multiset<nat>, others: multiset<nat>)
    requires whole' + part == whole + part' && part == part' + gone
    ensures others + whole' == others + whole - gone
  {
    assert whole' + gone == whole by {
      forall p
        ensures whole'[p] + gone[p] == whole[p]
      {
        assert (whole' + part)[p] == (whole + part')[p];
      }
    }
  }

  function Edited(s: Sequence, l: nat, next: Layer): Sequence
    requires l < |s.layers|
  {
    s.(layers := s.layers[l := next])
  }

  /** A layer that gives up some references takes them from the total. */
  lemma LayerEdit(sequences: map<int, Sequence>, id: int, l: nat, next: Layer, gone: multiset<nat>)
    requires id in sequences && l < |sequences[id].layers|
    requires multiset(LayerIds(sequences[id].layers[l].sealedPages)) == multiset(LayerIds(next.sealedPages)) + gone
    ensures References(sequences[id := Edited(sequences[id], l, next)]) == References(sequences) - gone
  {
    hide References, SequenceIds, LayerIds;
    ReferencesWithout(sequences, id);
    ReferencesUpdate(sequences, id, Edited(sequences[id], l, next));
    SequenceIdsUpdate(sequences[id].layers, l, next);
    TakeAway(multiset(SequenceIds(sequences[id].layers)), multiset(SequenceIds(sequences[id].layers[l := next])),
             multiset(LayerIds(sequences[id].layers[l].sealedPages)), multiset(LayerIds(next.sealedPages)),
             gone, References(sequences - {id}));
  }

  lemma LayerHeld(sequences: map<int, Sequence>, id: int, l: nat)
    requires id in sequences && l < |sequences[id].layers|
    ensures multiset(LayerIds(sequences[id].layers[l].sealedPages)) <= References(sequences)
  {
    hide References, SequenceIds, LayerIds;
    ReferencesWithout(sequences, id);
    LayerIdsWithin(sequences[id].layers, l);
  }

  /** Changing anything but the pages changes no count. */
  lemma SameReferences(sequences: map<int, Sequence>, id: int, next: Sequence)
    requires id in sequences && SequenceIds(sequences[id].layers) == SequenceIds(next.layers)
    ensures References(sequences[id := next]) == References(sequences)
  {
    hide References, SequenceIds;
    ReferencesWithout(sequences, id);
    ReferencesUpdate(sequences, id, next);
  }

  lemma NothingGone(begin: int, end: int)
    ensures GoneIds([], begin, end) == [] && KeptRefs([], begin, end) == []
  {
  }

  lemma GoneNext(refs: seq<PageRef>, i: nat, begin: int, end: int)
    requires i < |refs|
    ensures GoneIds(refs[..i + 1], begin, end)
         == if Outside(refs[i], begin, end) then GoneIds(refs[..i], begin, end)
           else GoneIds(refs[..i], begin, end) + [refs[i].pageId]
    ensures KeptRefs(refs[..i + 1], begin, end)
         == if Outside(refs[i], begin, end) then KeptRefs(refs[..i], begin, end) + [refs[i]]
           else KeptRefs(refs[..i], begin, end)
  {
    assert refs[..i + 1][..i] == refs[..i];
  }

  /** What is released so far and the next page are both still held. */
  lemma GoneHeld(refs: seq<PageRef>, i: nat, begin: int, end: int, held: multiset<nat>)
    requires i < |refs| && multiset(LayerIds(refs)) <= held
    ensures refs[i].pageId in held - multiset(GoneIds(refs[..i], begin, end))
    ensures held - multiset(GoneIds(refs[..i], begin, end)) - multiset{refs[i].pageId}
         == held - multiset(GoneIds(refs[..i], begin, end) + [refs[i].pageId])
  {
    hide GoneIds, KeptRefs;
    KeptAndGone(refs[..i], begin, end);
    assert LayerIds(refs) == LayerIds(refs[..i]) + [refs[i].pageId] + LayerIds(refs[i + 1..]);
  }

  lemma UntilCutIs(refs: seq<PageRef>, i: nat, begin: int, end: int)
    requires i <= |refs| && (i < |refs| ==> Cuts(refs[i], begin, end))
    requires forall j :: 0 <= j < i ==> !Cuts(refs[j], begin, end)
    ensures UntilCut(refs, begin, end) == i
  {
  }

  lemma LostHeld(sequences: map<int, Sequence>, id: int, l: nat, begin: int, end: int)
    requires id in sequences && l < |sequences[id].layers|
    ensures multiset(LostIds(sequences[id].layers[l].sealedPages, begin, end)) <= References(sequences)
  {
    hide References, LayerIds, KeptRefs, GoneIds, UntilCut;
    var refs := sequences[id].layers[l].sealedPages;
    var i := UntilCut(refs, begin, end);
    LayerHeld(sequences, id, l);
    KeptAndGone(refs[..i], begin, end);
    assert LayerIds(refs) == LayerIds(refs[..i]) + LayerIds(refs[i..]);
  }

  lemma NoneIn(s: seq<nat>)
    ensures s == [] <==> multiset(s) == multiset{}
  {
    if s != [] {
      assert s[0] in multiset(s);
    }
  }

  /** Books that balance after a loss were not balanced before it. */
  lemma NothingLost(pages: map<nat, SharedPage>, refs: multiset<nat>, lost: seq<nat>)
    requires multiset(lost) <= refs && Counted(pages, refs - multiset(lost))
    ensures Counted(pages, refs) <==> lost == []
  {
    hide Counted;
    if lost == [] {
      assert refs - multiset(lost) == refs;
    }
    if Counted(pages, refs) {
      CountedUnique(pages, refs, multiset(lost));
      NoneIn(lost);
    }
  }

  lemma RemovedNext(layers: seq<Layer>, l: nat, begin: int, end: int)
    requires l < |layers| && forall i :: 0 <= i <= l ==> Removable(layers[i], begin, end)
    ensures RemovedUpTo(layers, l, begin, end)[l := RemovedLayer(layers[l], begin, end)]
         == RemovedUpTo(layers, l + 1, begin, end)
  {
    hide Removable, RemovedLayer;
  }

  lemma RemovedNone(layers: seq<Layer>, begin: int, end: int)
    ensures RemovedUpTo(layers, 0, begin, end) == layers
  {
  }

  lemma StuckSplit(layers: seq<Layer>, l: nat, begin: int, end: int)
    requires StuckAt(layers, l, begin, end)
    ensures var refs := layers[l].sealedPages;
            (UntilCut(refs, begin, end) < |refs| ==>
             StuckLayers(layers, l, begin, end) == RemovedUpTo(layers, l, begin, end))
    ensures var refs := layers[l].sealedPages; UntilCut(refs, begin, end) == |refs| ==> LostIds(refs, begin, end) == []
  {
    hide KeptRefs, UntilCut, GoneIds;
    assert RemovedUpTo(layers, l, begin, end)[l] == layers[l];
  }

  lemma RemovedAllOrdered(layers: seq<Layer>, begin: int, end: int)
    requires forall i :: 0 <= i < |layers| ==> Removable(layers[i], begin, end)
    ensures LayersOrdered(layers) ==> LayersOrdered(RemovedUpTo(layers, |layers|, begin, end))
  {
    hide Removable, RemovedLayer, Ordered;
    if LayersOrdered(layers) {
      forall i | 0 <= i < |layers|
        ensures Ordered(RemovedUpTo(layers, |layers|, begin, end)[i])
      {
        RemovedOrdered(layers[i], begin, end);
      }
    }
  }

  /** What a stuck removal did: everything before layer l, and to layer l what it could before it stopped. */
  ghost predicate Stuck(before: map<int, Sequence>, after: map<int, Sequence>, id: int, l: nat, begin: int, end: int,
                        lost: seq<nat>)
    requires id in before
  {
    && StuckAt(before[id].layers, l, begin, end)
    && after == before[id := before[id].(layers := StuckLayers(before[id].layers, l, begin, end))]
    && lost == LostIds(before[id].layers[l].sealedPages, begin, end)
  }

  /** Editing a layer without changing the pages it refers to changes no count. */
  lemma SamePages(sequences: map<int, Sequence>, id: int, l: nat, next: Layer)
    requires id in sequences && l < |sequences[id].layers|
    requires LayerIds(next.sealedPages) == LayerIds(sequences[id].layers[l].sealedPages)
    ensures References(sequences[id := Edited(sequences[id], l, next)]) == References(sequences)
  {
    hide References, SequenceIds, LayerIds;
    LayerEdit(sequences, id, l, next, multiset{});
    assert References(sequences) - multiset{} == References(sequences);
  }

  lemma ShiftedNext(layers: seq<Layer>, l: nat, begin: nat, end: nat, delta: int)
    requires l < |layers| && Moves(layers[l], begin, end, delta)
    requires forall i :: 0 <= i < l ==> Moves(layers[i], begin, end, delta)
    ensures ShiftedUpTo(layers, l, begin, end, delta)[l := ShiftedLayer(layers[l], begin, end, delta)]
         == ShiftedUpTo(layers, l + 1, begin, end, delta)
  {
    hide Shiftable, ShiftedLayer, Ordered;
  }

  lemma ShiftedNone(layers: seq<Layer>, begin: nat, end: nat, delta: int)
    ensures ShiftedUpTo(layers, 0, begin, end, delta) == layers
  {
  }

  lemma ShiftedOrdered(layers: seq<Layer>, begin: nat, end: nat, delta: int)
    requires forall i :: 0 <= i < |layers| ==> Moves(layers[i], begin, end, delta)
    ensures LayersOrdered(ShiftedUpTo(layers, |layers|, begin, end, delta))
  {
    hide Shiftable, ShiftedLayer, Ordered;
  }

  lemma ShiftedLayerIds(layer: Layer, next: Layer)
    requires |next.sealedPages| == |layer.sealedPages|
    requires forall i :: 0 <= i < |layer.sealedPages| ==> next.sealedPages[i].pageId == layer.sealedPages[i].pageId
    ensures LayerIds(next.sealedPages) == LayerIds(layer.sealedPages)
  {
  }

  function Max0(x: int): nat {
    if x < 0 then 0 else x
  }

  /** What a stuck shift left: the layers before have moved, the stuck one as far as it could. */
  ghost predicate ShiftStuck(before: map<int, Sequence>, after: map<int, Sequence>, id: int, l: nat,
                             begin: nat, end: nat, delta: int)
    requires id in before
  {
    var layers := before[id].layers;
    && l < |layers| && !Moves(layers[l], begin, end, delta)
    && (forall i :: 0 <= i < l ==> Moves(layers[i], begin, end, delta))
    && after == before[id := before[id].(
         layers := ShiftedUpTo(layers, l, begin, end, delta)[l := HalfShifted(layers[l], begin, end, delta)])]
  }

  // ---- speculation --------------------------------------------------------------------------------

  function Begun(s: Sequence, ticket: nat): Sequence {
    s.(speculation := Speculation(ticket, LongestTail(s.layers), s.topologyGeneration, true))
  }

  predicate CanCommit(s: Sequence, accepted: nat) {
    forall i :: 0 <= i < |s.layers| ==> Committable(s.layers[i], s.speculation.baselineCount, accepted)
  }

  function Committed(s: Sequence, accepted: nat): Sequence {
    s.(layers := WithCountUpTo(s.layers, |s.layers|, s.speculation.baselineCount + accepted),
       speculation := NO_SPECULATION, topologyGeneration := s.topologyGeneration + 1)
  }

  function RolledBack(s: Sequence): Sequence {
    s.(layers := WithCountUpTo(s.layers, |s.layers|, s.speculation.baselineCount),
       speculation := NO_SPECULATION, topologyGeneration := s.speculation.baselineGeneration)
  }

  /** What a stuck commit left: the layers before are cut to the accepted count, the speculation is still active. */
  ghost predicate CommitStuck(before: map<int, Sequence>, after: map<int, Sequence>, id: int, l: nat, accepted: nat)
    requires id in before
  {
    var s := before[id];
    && l < |s.layers| && !Committable(s.layers[l], s.speculation.baselineCount, accepted)
    && (forall i :: 0 <= i < l ==> Committable(s.layers[i], s.speculation.baselineCount, accepted))
    && after == before[id := s.(layers := WithCountUpTo(s.layers, l, s.speculation.baselineCount + accepted))]
  }

  lemma WithCountNext(layers: seq<Layer>, l: nat, count: nat)
    requires l < |layers|
    ensures WithCountUpTo(layers, l, count)[l := WithCount(layers[l], count)] == WithCountUpTo(layers, l + 1, count)
    ensures WithCountUpTo(layers, l, count)[l] == layers[l]
  {
  }

  lemma LongestTailNext(layers: seq<Layer>, l: nat)
    requires l < |layers|
    ensures LongestTail(layers[..l + 1])
         == if layers[l].activeCount > LongestTail(layers[..l]) then layers[l].activeCount else LongestTail(layers[..l])
  {
    assert layers[..l + 1][..l] == layers[..l];
  }

  // ---- reclamation --------------------------------------------------------------------------------

  /** The store without the pages of the first i entries of the queue. */
  ghost function Reclaimed(store: map<nat, SharedPage>, retired: seq<RetiredPage>, i: nat): map<nat, SharedPage>
    requires i <= |retired|
  {
    map p | p in store && !InQueue(retired[..i], p) :: store[p]
  }

  lemma ReclaimNone(store: map<nat, SharedPage>, retired: seq<RetiredPage>)
    ensures Reclaimed(store, retired, 0) == store && PendingBytes(retired[..0]) == 0
  {
  }

  lemma ReclaimNext(store: map<nat, SharedPage>, retired: seq<RetiredPage>, refs: multiset<nat>, i: nat)
    requires Queued(store, retired) && Counted(store, refs) && i < |retired|
    ensures var p := retired[i].pageId;
            && p in Reclaimed(store, retired, i) && Reclaimed(store, retired, i)[p].refcount == 0
            && Reclaimed(store, retired, i) - {p} == Reclaimed(store, retired, i + 1)
    ensures PendingBytes(retired[..i + 1]) == PendingBytes(retired[..i]) + retired[i].residentBytes
  {
    var p := retired[i].pageId;
    assert retired[..i + 1][..i] == retired[..i];
    forall q | q in store
      ensures InQueue(retired[..i + 1], q) <==> InQueue(retired[..i], q) || q == p
    {
      if InQueue(retired[..i], q) {
        var j :| 0 <= j < i && retired[..i][j].pageId == q;
        assert retired[..i + 1][j].pageId == q;
      }
      if q == p {
        assert retired[..i + 1][i].pageId == q;
      }
    }
  }

  lemma {:induction false} PendingPrefix(retired: seq<RetiredPage>, i: nat)
    requires i <= |retired|
    ensures PendingBytes(retired[..i]) <= PendingBytes(retired)
    decreases |retired|
  {
    if i < |retired| {
      PendingPrefix(retired[..|retired| - 1], i);
      assert retired[..|retired| - 1][..i] == retired[..i];
    } else {
      assert retired[..i] == retired;
    }
  }

  /** Afterwards exactly the live pages are left, and they still balance. */
  lemma ReclaimAll(store: map<nat, SharedPage>, retired: seq<RetiredPage>, refs: multiset<nat>)
    requires Queued(store, retired) && Counted(store, refs)
    ensures Reclaimed(store, retired, |retired|) == map p | p in store && !store[p].retired :: store[p]
    ensures Counted(Reclaimed(store, retired, |retired|), refs)
    ensures Queued(Reclaimed(store, retired, |retired|), []) && PendingBytes([]) == 0
  {
    assert retired[..|retired|] == retired;
  }
}
