/** The multi-sequence cache: sequences that share immutable pages by reference count. */
module SequenceCache {
  import opened Common
  import opened CacheBooks
  import opened CacheModel

  datatype Reason =
    | BadArguments | UnknownSequence | SequenceExists | ReferenceOverflow
    | CutsPage | CutsTail | BadShift | NonContiguous | PageFull
    | BadTransaction | BadCommit | BadQueue | AuditFailed

  datatype Outcome = Done | Failed(reason: Reason)

  /** The mutation took effect: either reported as done, or reported as failed by the audit that follows it. */
  predicate TookEffect(r: Outcome) {
    r == Done || r == Failed(AuditFailed)
  }

  /** How a removal of a range turns out: complete, or stuck at one layer. */
  ghost predicate RemovalOutcome(before: map<int, Sequence>, after: map<int, Sequence>, id: int, begin: int, end: int,
                                 r: Outcome, stuck: nat, lost: seq<nat>)
    requires id in before
  {
    var s := before[id];
    if forall i :: 0 <= i < |s.layers| ==> Removable(s.layers[i], begin, end) then
      TookEffect(r) && after == before[id := s.(layers := RemovedUpTo(s.layers, |s.layers|, begin, end),
                                                topologyGeneration := s.topologyGeneration + 1)]
    else
      (r == Failed(CutsPage) || r == Failed(CutsTail)) && Stuck(before, after, id, stuck, begin, end, lost)
  }

  type Positive = n: nat | n > 0 witness 1

  class Cache {
    const layerCount: nat
    const pageSize: nat
    const auditing: bool
    var sequences: map<int, Sequence>
    var pageStore: map<nat, SharedPage>
    var retired: seq<RetiredPage>
    var pendingBytes: nat
    var pendingCount: nat
    var pendingPeak: nat
    var pagesReclaimed: nat
    var activeSequences: nat
    var activePeak: nat
    var globalGeneration: nat
    var nextSpeculation: Positive
    var invariantFailures: nat

    constructor (layers: nat, size: nat, audit: bool)
      ensures Valid() && AllOrdered() && sequences == map[] && pageStore == map[]
      ensures layerCount == layers && pageSize == size && auditing == audit
    {
      layerCount, pageSize, auditing := layers, size, audit;
      sequences, pageStore, retired := map[], map[], [];
      pendingBytes, pendingCount, pendingPeak, pagesReclaimed := 0, 0, 0, 0;
      activeSequences, activePeak := 0, 0;
      globalGeneration, nextSpeculation, invariantFailures := 1, 1, 0;
    }

    // ---- invariants ---------------------------------------------------------------------------

    /** The page books balance against these references, and the reclamation queue against the books. */
    ghost predicate StoreValid(refs: multiset<nat>)
      reads this`pageStore, this`retired, this`pendingBytes, this`pendingCount, this`pendingPeak
    {
      && Counted(pageStore, refs) && Queued(pageStore, retired)
      && pendingBytes == PendingBytes(retired) && pendingCount == |retired| && pendingBytes <= pendingPeak
    }

    ghost predicate WellFormed()
      reads this`sequences
    {
      forall id :: id in sequences ==> sequences[id].id == id && |sequences[id].layers| == layerCount
    }

    ghost predicate Valid()
      reads this
    {
      WellFormed() && StoreValid(References(sequences))
    }

    ghost predicate AllOrdered()
      reads this`sequences
    {
      forall id :: id in sequences ==> LayersOrdered(sequences[id].layers)
    }

    // ---- pages ----------------------------------------------------------------------------------

    method AcquirePage(p: nat) returns (ok: bool)
      modifies this`pageStore
      ensures ok <==> p in old(pageStore) && !old(pageStore)[p].retired && old(pageStore)[p].refcount != UINT32 - 1
      ensures ok ==> pageStore == old(pageStore)[p := Acquired(old(pageStore)[p])]
      ensures !ok ==> pageStore == old(pageStore)
    {
      if p !in pageStore || pageStore[p].retired || pageStore[p].refcount == UINT32 - 1 {
        return false;
      }
      pageStore := pageStore[p := pageStore[p].(refcount := pageStore[p].refcount + 1)];
      ok := true;
    }

    method ReleasePage(p: nat) returns (ok: bool)
      modifies this`pageStore, this`retired, this`pendingBytes, this`pendingCount, this`pendingPeak
      ensures ok <==> p in old(pageStore) && old(pageStore)[p].refcount != 0
      ensures ok ==> pageStore == old(pageStore)[p := Released(old(pageStore)[p])]
      ensures ok ==> retired == QueueAfter(old(retired), old(pageStore)[p], globalGeneration)
      ensures ok && |retired| > |old(retired)| ==>
        && pendingCount == |retired| && pendingBytes == old(pendingBytes) + old(pageStore)[p].residentBytes
        && old(pendingPeak) <= pendingPeak && pendingBytes <= pendingPeak
      ensures ok && |retired| <= |old(retired)| ==>
        pendingCount == old(pendingCount) && pendingBytes == old(pendingBytes) && pendingPeak == old(pendingPeak)
      ensures !ok ==> pageStore == old(pageStore) && retired == old(retired)
      ensures !ok ==>
        pendingBytes == old(pendingBytes) && pendingCount == old(pendingCount) && pendingPeak == old(pendingPeak)
    {
      if p !in pageStore || pageStore[p].refcount == 0 {
        return false;
      }
      var page := pageStore[p].(refcount := pageStore[p].refcount - 1);
      if page.refcount == 0 {
        page := page.(retired := true);
        retired := retired + [RetiredPage(page.pageId, page.residentBytes, globalGeneration)];
        pendingCount := |retired|;
        pendingBytes := pendingBytes + page.residentBytes;
        pendingPeak := if pendingBytes > pendingPeak then pendingBytes else pendingPeak;
      }
      pageStore := pageStore[p := page];
      ok := true;
    }

    /** Releasing a held reference keeps the books. */
    method ReleaseHeld(p: nat, ghost refs: multiset<nat>)
      requires StoreValid(refs) && p in refs
      modifies this`pageStore, this`retired, this`pendingBytes, this`pendingCount, this`pendingPeak
      ensures StoreValid(refs - multiset{p})
      ensures old(pendingPeak) <= pendingPeak && |retired| >= |old(retired)|
    {
      hide Counted, Queued, PendingBytes;
      ReleaseCounted(pageStore, refs, p);
      PageKey(pageStore, refs, p);
      ReleaseQueued(pageStore, retired, p, globalGeneration);
      QueueAfterBytes(retired, pageStore[p], globalGeneration);
      var ok := ReleasePage(p);
    }

    method ReleaseAll(ids: seq<nat>, ghost refs: multiset<nat>)
      requires StoreValid(refs) && multiset(ids) <= refs
      modifies this`pageStore, this`retired, this`pendingBytes, this`pendingCount, this`pendingPeak
      ensures StoreValid(refs - multiset(ids))
    {
      hide StoreValid;
      assert multiset(ids[..0]) == multiset{};
      assert refs - multiset{} == refs;
      for i := 0 to |ids|
        invariant StoreValid(refs - multiset(ids[..i]))
      {
        TakeNext(ids, i, refs);
        ReleaseHeld(ids[i], refs - multiset(ids[..i]));
      }
      assert ids[..|ids|] == ids;
    }

    // ---- audit ------------------------------------------------------------------------------------

    ghost predicate SequenceOk(id: int)
      requires id in sequences
      reads this
    {
      && sequences[id].id == id && |sequences[id].layers| == layerCount
      && LayersOrdered(sequences[id].layers)
      && forall p :: p in SequenceIds(sequences[id].layers) ==> p in pageStore && !pageStore[p].retired
    }

    ghost predicate PageOk(p: nat)
      requires p in pageStore
      reads this
    {
      && (!pageStore[p].retired ==> pageStore[p].refcount == References(sequences)[p])
      && (pageStore[p].retired ==> pageStore[p].refcount == 0 && References(sequences)[p] == 0)
    }

    /** What the audit checks. */
    ghost predicate AuditPasses()
      reads this
    {
      && (forall id :: id in sequences ==> SequenceOk(id))
      && (forall p :: p in pageStore ==> PageOk(p))
    }

    /** Walks every sequence, counting references, then every page. */
    method Audit() returns (ok: bool)
      ensures ok <==> AuditPasses()
    {
      hide SequenceOk, PageOk, References, SequenceIds;
      var observed: multiset<nat> := multiset{};
      var todo := sequences;
      assert References(map[]) == multiset{} by { NoReferences(); }
      while todo != map[]
        invariant forall id :: id in todo ==> id in sequences && todo[id] == sequences[id]
        invariant forall id :: id in sequences && id !in todo ==> SequenceOk(id)
        invariant References(sequences) == observed + References(todo)
        decreases |todo|
      {
        SomeSequence(todo);
        var id :| id in todo;
        var good := AuditSequence(id);
        if !good {
          return false;
        }
        ReferencesWithout(todo, id);
        observed := observed + multiset(SequenceIds(todo[id].layers));
        todo := todo - {id};
      }
      var pages := pageStore.Keys;
      while pages != {}
        invariant pages <= pageStore.Keys
        invariant forall p :: p in pageStore && p !in pages ==> PageOk(p)
      {
        var p :| p in pages;
        AuditPage(p);
        if !pageStore[p].retired && pageStore[p].refcount != observed[p] {
          return false;
        }
        if pageStore[p].retired && (pageStore[p].refcount != 0 || observed[p] != 0) {
          return false;
        }
        pages := pages - {p};
      }
      ok := true;
    }

    lemma AuditPage(p: nat)
      requires p in pageStore
      ensures PageOk(p) <==> && (!pageStore[p].retired ==> pageStore[p].refcount == References(sequences)[p])
                             && (pageStore[p].retired ==> pageStore[p].refcount == 0 && References(sequences)[p] == 0)
    {
    }

    method AuditSequence(id: int) returns (ok: bool)
      requires id in sequences
      ensures ok <==> SequenceOk(id)
    {
      hide Ordered;
      var sequence := sequences[id];
      if sequence.id != id || |sequence.layers| != layerCount {
        return false;
      }
      assert sequence.layers[..|sequence.layers|] == sequence.layers;
      for l := 0 to |sequence.layers|
        invariant forall i :: 0 <= i < l ==> Ordered(sequence.layers[i])
        invariant forall p :: p in SequenceIds(sequence.layers[..l]) ==> p in pageStore && !pageStore[p].retired
      {
        var layer := sequence.layers[l];
        SequenceIdsNext(sequence.layers, l);
        LayerPrefixIn(sequence.layers, l);
        var ordered := ValidatePageOrder(layer);
        if !ordered {
          return false;
        }
        for i := 0 to |layer.sealedPages|
          invariant forall j :: 0 <= j < i ==>
            layer.sealedPages[j].pageId in pageStore && !pageStore[layer.sealedPages[j].pageId].retired
        {
          var p := layer.sealedPages[i].pageId;
          assert p == LayerIds(layer.sealedPages)[i];
          if p !in pageStore || pageStore[p].retired {
            return false;
          }
        }
      }
      ok := true;
    }

    /** With balanced books only the order of pages can fail an audit. */
    lemma AuditOfValid()
      requires Valid()
      ensures AuditPasses() <==> AllOrdered()
    {
      hide References, SequenceIds, LayersOrdered;
      forall id | id in sequences
        ensures SequenceOk(id) <==> LayersOrdered(sequences[id].layers)
      {
        forall p | p in SequenceIds(sequences[id].layers)
          ensures p in pageStore && !pageStore[p].retired
        {
          SequenceIdsIn(sequences, id, p);
        }
      }
      forall p | p in pageStore
        ensures PageOk(p)
      {
        CountOf(pageStore, References(sequences), p);
      }
    }

    /** The audit that follows a mutation, when auditing is on. */
    method MaybeAudit() returns (r: Outcome)
      requires Valid()
      modifies this`invariantFailures
      ensures r == (if !auditing || AllOrdered() then Done else Failed(AuditFailed))
      ensures invariantFailures == old(invariantFailures) + (if r == Done then 0 else 1)
      ensures Valid() && (AllOrdered() <==> old(AllOrdered()))
    {
      hide References, LayersOrdered, Counted, Queued;
      if !auditing {
        return Done;
      }
      var ok := Audit();
      AuditOfValid();
      if !ok {
        assert !AllOrdered();
        invariantFailures := invariantFailures + 1;
        return Failed(AuditFailed);
      }
      r := Done;
    }

    // ---- creating and copying -----------------------------------------------------------------------

    method UpdateActivePeak()
      modifies this`activeSequences, this`activePeak
      ensures activeSequences == |sequences| && activePeak >= |sequences| && activePeak >= old(activePeak)
    {
      activeSequences := |sequences|;
      activePeak := if activeSequences > activePeak then activeSequences else activePeak;
    }

    /** A new sequence holds no references; it is there even if the audit then complains. */
    method Create(id: int) returns (r: Outcome)
      requires Valid()
      modifies this
      ensures globalGeneration == old(globalGeneration) + (if TookEffect(r) then 1 else 0)
      ensures Valid()
      ensures r == Failed(SequenceExists) <==> id in old(sequences)
      ensures r == Failed(SequenceExists) || TookEffect(r)
      ensures r == Failed(SequenceExists) ==> sequences == old(sequences)
      ensures TookEffect(r) ==>
        sequences == old(sequences)[id := NewSequence(id, layerCount, old(globalGeneration) + 1)]
      ensures TookEffect(r) ==> activeSequences == |sequences|
      ensures pageStore == old(pageStore) && retired == old(retired)
      ensures old(AllOrdered()) ==> AllOrdered() && r != Failed(AuditFailed)
    {
      hide References, SequenceIds, Counted, Queued, PendingBytes, LayersOrdered, NewSequence;
      if id in sequences {
        return Failed(SequenceExists);
      }
      globalGeneration := globalGeneration + 1;
      NewSequenceEmpty(id, layerCount, globalGeneration);
      AddUnreferenced(sequences, id, NewSequence(id, layerCount, globalGeneration));
      sequences := sequences[id := NewSequence(id, layerCount, globalGeneration)];
      UpdateActivePeak();
      r := MaybeAudit();
    }

    /** Gives back references acquired for a copy that cannot be completed. */
    method GiveBack(acquired: seq<nat>, ghost base: map<nat, SharedPage>)
      requires pageStore == Bumped(base, multiset(acquired))
      requires forall p :: p in acquired ==> p in base && base[p].refcount > 0
      modifies this`pageStore, this`retired, this`pendingBytes, this`pendingCount, this`pendingPeak
      ensures pageStore == base
      ensures retired == old(retired) && pendingBytes == old(pendingBytes)
      ensures pendingCount == old(pendingCount) && pendingPeak == old(pendingPeak)
    {
      hide Bumped;
      assert acquired[0..] == acquired;
      for i := 0 to |acquired|
        invariant pageStore == Bumped(base, multiset(acquired[i..]))
        invariant retired == old(retired) && pendingBytes == old(pendingBytes)
        invariant pendingCount == old(pendingCount) && pendingPeak == old(pendingPeak)
      {
        var p := acquired[i];
        assert acquired[i..] == [p] + acquired[i + 1..];
        BumpedBack(base, multiset(acquired[i..]), p);
        assert multiset(acquired[i..]) - multiset{p} == multiset(acquired[i + 1..]);
        var ok := ReleasePage(p);
      }
      BumpedNone(base);
      assert multiset(acquired[|acquired|..]) == multiset{};
    }

    /** Acquires the pages of one layer that lie in the range; true unless a count would overflow. */
    method AcquireLayer(refs: seq<PageRef>, begin: nat, end: nat, before: seq<nat>, ghost base: map<nat, SharedPage>)
      returns (ok: bool, kept: seq<PageRef>, acquired: seq<nat>)
      requires pageStore == Bumped(base, multiset(before)) && FitsCounts(base, multiset(before))
      requires forall p :: p in LayerIds(refs) ==> p in base && !base[p].retired
      modifies this`pageStore
      ensures pageStore == Bumped(base, multiset(acquired)) && FitsCounts(base, multiset(acquired))
      ensures ok ==> kept == CopiedRefs(refs, begin, end) && acquired == before + LayerIds(kept)
      ensures !ok ==> exists i :: 0 <= i < |refs| && Overflows(refs, i, begin, end, before, acquired, base)
    {
      hide CopiedRefs, Bumped, LayerIds, FitsCounts;
      kept, acquired := [], before;
      assert refs[..0] == [] && before + [] == before;
      NoCopiedRefs(begin, end);
      for i := 0 to |refs|
        invariant kept == CopiedRefs(refs[..i], begin, end) && acquired == before + LayerIds(kept)
        invariant pageStore == Bumped(base, multiset(acquired)) && FitsCounts(base, multiset(acquired))
      {
        CopiedNext(refs, i, begin, end);
        if InRange(refs[i], begin, end) {
          var p := refs[i].pageId;
          LayerIdsAt(refs, i);
          BumpedNext(base, multiset(acquired), p);
          BumpedAt(base, multiset(acquired), p);
          var good := AcquirePage(p);
          if !good {
            assert Overflows(refs, i, begin, end, before, acquired, base);
            return false, kept, acquired;
          }
          CountsNext(base, multiset(acquired), p);
          acquired := acquired + [p];
          kept := kept + [refs[i]];
        }
      }
      assert refs[..|refs|] == refs;
      ok := true;
    }

    /** Takes a reference to every page of the source range, or gives all of them back. */
    method AcquireCopy(source: seq<Layer>, begin: nat, end: nat) returns (ok: bool, layers: seq<Layer>)
      requires forall p :: p in SequenceIds(source) ==>
        p in pageStore && pageStore[p].refcount > 0 && !pageStore[p].retired
      requires forall p :: p in pageStore ==> pageStore[p].refcount < UINT32
      modifies this`pageStore, this`retired, this`pendingBytes, this`pendingCount, this`pendingPeak
      ensures retired == old(retired) && pendingBytes == old(pendingBytes)
      ensures pendingCount == old(pendingCount) && pendingPeak == old(pendingPeak)
      ensures ok ==> layers == CopiedLayers(source, begin, end)
      ensures ok ==> pageStore == Bumped(old(pageStore), multiset(SequenceIds(CopiedLayers(source, begin, end))))
      ensures ok <==> FitsCounts(old(pageStore), multiset(SequenceIds(CopiedLayers(source, begin, end))))
      ensures !ok ==> pageStore == old(pageStore)
    {
      hide SequenceIds, CopiedRefs, Bumped, LayerIds, FitsCounts;
      ghost var base := pageStore;
      ghost var all := CopiedLayers(source, begin, end);
      var acquired: seq<nat> := [];
      layers := [];
      BumpedNone(base);
      NoLayerIds();
      NothingFits(base);
      for l := 0 to |source|
        invariant retired == old(retired) && pendingBytes == old(pendingBytes)
        invariant pendingCount == old(pendingCount) && pendingPeak == old(pendingPeak)
        invariant layers == all[..l] && acquired == SequenceIds(all[..l])
        invariant pageStore == Bumped(base, multiset(acquired)) && FitsCounts(base, multiset(acquired))
      {
        LayerPrefixIn(source, l);
        ghost var before := acquired;
        var good, kept, taken := AcquireLayer(source[l].sealedPages, begin, end, acquired, base);
        acquired := taken;
        if !good {
          TooMany(base, source, all, l, begin, end, before, acquired);
          GiveBack(acquired, base);
          return false, [];
        }
        var tail := source[l];
        layers := layers + [if tail.activeCount > 0 && tail.activeBegin >= begin && tail.ActiveEnd() <= end
                            then Layer(kept, tail.activeBegin, tail.activeCount, tail.activeGeneration + 1,
                                       tail.descriptorGeneration + 1)
                            else Layer(kept, 0, 0, 0, tail.descriptorGeneration + 1)];
        SequenceIdsNext(all, l);
      }
      assert all[..|source|] == all;
      ok := true;
    }

    method ReleaseSequencePages(layers: seq<Layer>, ghost refs: multiset<nat>)
      requires StoreValid(refs) && multiset(SequenceIds(layers)) <= refs
      modifies this`pageStore, this`retired, this`pendingBytes, this`pendingCount, this`pendingPeak
      ensures StoreValid(refs - multiset(SequenceIds(layers)))
    {
      hide StoreValid, SequenceIds;
      NoLayerIds();
      assert layers[..0] == [] && refs - multiset{} == refs;
      for l := 0 to |layers|
        invariant StoreValid(refs - multiset(SequenceIds(layers[..l])))
      {
        ReleaseLayerShare(layers, l, refs);
        ReleaseAll(LayerIds(layers[l].sealedPages), refs - multiset(SequenceIds(layers[..l])));
      }
      assert layers[..|layers|] == layers;
    }

    twostate predicate SameBooks()
      reads this
    {
      && pageStore == old(pageStore) && retired == old(retired) && pendingBytes == old(pendingBytes)
      && pendingCount == old(pendingCount) && pendingPeak == old(pendingPeak)
    }

    /** Publishes a sequence whose references are already counted, releasing those of the one it replaces. */
    method Replace(id: int, next: Sequence)
      requires WellFormed() && next.id == id && |next.layers| == layerCount
      requires StoreValid(References(sequences) + multiset(SequenceIds(next.layers)))
      modifies this`sequences, this`pageStore, this`retired, this`pendingBytes, this`pendingCount, this`pendingPeak
      ensures Valid() && sequences == old(sequences)[id := next]
    {
      hide References, SequenceIds, StoreValid;
      ghost var refs := References(sequences) + multiset(SequenceIds(next.layers));
      ReferencesUpdate(sequences, id, next);
      if id in sequences {
        ReferencesWithout(sequences, id);
        ExchangeReferences(References(sequences - {id}), multiset(SequenceIds(sequences[id].layers)),
                           multiset(SequenceIds(next.layers)));
        ReleaseSequencePages(sequences[id].layers, refs);
      } else {
        assert sequences - {id} == sequences;
      }
      sequences := sequences[id := next];
    }

    /** Whole pages of the range are shared, the tail copied; an older destination is released only after
        every page is acquired.  A copy that fails before that leaves everything as it was. */
    method Copy(sourceId: int, destinationId: int, begin: nat, end: nat) returns (r: Outcome)
      requires Valid()
      modifies this
      ensures TookEffect(r) ==> activeSequences == |sequences| <= activePeak
      ensures globalGeneration == old(globalGeneration) + (if TookEffect(r) then 1 else 0)
      ensures Valid()
      ensures r == Failed(BadArguments) <==> sourceId == destinationId || end < begin
      ensures r == Failed(UnknownSequence) <==> sourceId != destinationId && end >= begin && sourceId !in old(sequences)
      ensures r == Failed(ReferenceOverflow) <==> (
        && sourceId != destinationId && end >= begin && sourceId in old(sequences)
        && !FitsCounts(old(pageStore),
                       multiset(SequenceIds(CopiedLayers(old(sequences)[sourceId].layers, begin, end)))))
      ensures TookEffect(r) || r == Failed(BadArguments) || r == Failed(UnknownSequence)
           || r == Failed(ReferenceOverflow)
      ensures !TookEffect(r) ==> sequences == old(sequences) && SameBooks()
      ensures TookEffect(r) ==> sequences == old(sequences)[destinationId := Sequence(
        destinationId, CopiedLayers(old(sequences)[sourceId].layers, begin, end), old(globalGeneration) + 1, 0,
        NO_SPECULATION)]
      ensures old(AllOrdered()) ==> AllOrdered() && r != Failed(AuditFailed)
    {
      hide References, SequenceIds, Counted, Queued, PendingBytes, Bumped, FitsCounts, CopiedLayer, Ordered;
      if sourceId == destinationId || end < begin {
        return Failed(BadArguments);
      }
      if sourceId !in sequences {
        return Failed(UnknownSequence);
      }
      ghost var base := pageStore;
      var source := sequences[sourceId].layers;
      SourceHeld(pageStore, sequences, sourceId);
      var ok, layers := AcquireCopy(source, begin, end);
      if !ok {
        return Failed(ReferenceOverflow);
      }
      CopyCounted(base, retired, sequences, sourceId, begin, end);
      Replace(destinationId, Sequence(destinationId, layers, globalGeneration + 1, 0, NO_SPECULATION));
      globalGeneration := globalGeneration + 1;
      CopiedLayersOrdered(source, begin, end);
      UpdateActivePeak();
      r := MaybeAudit();
    }

    // ---- removing ---------------------------------------------------------------------------------

    /** Releases the pages of one layer that lie in the range, stopping at one the range cuts. */
    method ReleaseRange(refs: seq<PageRef>, begin: int, end: int, ghost held: multiset<nat>)
      returns (ok: bool, kept: seq<PageRef>, ghost gone: seq<nat>)
      requires StoreValid(held) && multiset(LayerIds(refs)) <= held
      modifies this`pageStore, this`retired, this`pendingBytes, this`pendingCount, this`pendingPeak
      ensures ok <==> UntilCut(refs, begin, end) == |refs|
      ensures ok ==> kept == KeptRefs(refs, begin, end) && gone == GoneIds(refs, begin, end)
      ensures !ok ==> gone == LostIds(refs, begin, end)
      ensures StoreValid(held - multiset(gone))
    {
      hide StoreValid, LayerIds, UntilCut, KeptRefs, GoneIds;
      kept, gone := [], [];
      assert refs[..0] == [] && held - multiset(gone) == held;
      NothingGone(begin, end);
      for i := 0 to |refs|
        invariant forall j :: 0 <= j < i ==> !Cuts(refs[j], begin, end)
        invariant kept == KeptRefs(refs[..i], begin, end) && gone == GoneIds(refs[..i], begin, end)
        invariant StoreValid(held - multiset(gone))
      {
        GoneNext(refs, i, begin, end);
        if refs[i].End() <= begin || refs[i].logicalBegin >= end {
          kept := kept + [refs[i]];
          continue;
        }
        if begin > refs[i].logicalBegin || end < refs[i].End() {
          UntilCutIs(refs, i, begin, end);
          return false, kept, gone;
        }
        GoneHeld(refs, i, begin, end, held);
        ReleaseHeld(refs[i].pageId, held - multiset(gone));
        gone := gone + [refs[i].pageId];
      }
      UntilCutIs(refs, |refs|, begin, end);
      assert refs[..|refs|] == refs;
      ok := true;
    }

    /** Removes the range from one layer in place.  A cut page leaves the pages released before it referenced. */
    method RemoveFromLayer(id: int, l: nat, begin: int, end: int) returns (r: Outcome, ghost lost: seq<nat>)
      requires Valid() && id in sequences && l < layerCount && begin <= end
      modifies this`sequences, this`pageStore, this`retired, this`pendingBytes, this`pendingCount, this`pendingPeak
      ensures WellFormed() && StoreValid(References(sequences) - multiset(lost))
      ensures var old_ := old(sequences)[id].layers[l];
              var cut := UntilCut(old_.sealedPages, begin, end) < |old_.sealedPages|;
              && (r == Done <==> Removable(old_, begin, end))
              && (r != Failed(CutsPage) ==> lost == [])
              && (r == Done ==>
                  sequences == old(sequences)[id := Edited(old(sequences)[id], l, RemovedLayer(old_, begin, end))])
              && (cut ==> r == Failed(CutsPage) && sequences == old(sequences))
              && (r == Done || cut || (
                  && r == Failed(CutsTail)
                  && sequences == old(sequences)[id := Edited(old(sequences)[id], l,
                                    old_.(sealedPages := KeptRefs(old_.sealedPages, begin, end)))]))
              && lost == LostIds(old_.sealedPages, begin, end)
    {
      hide StoreValid, References, LayerIds, UntilCut, KeptRefs, GoneIds;
      var layer := sequences[id].layers[l];
      LayerHeld(sequences, id, l);
      ghost var refs := References(sequences);
      var ok, kept, gone := ReleaseRange(layer.sealedPages, begin, end, refs);
      if !ok {
        return Failed(CutsPage), gone;
      }
      lost := [];
      KeptAndGone(layer.sealedPages, begin, end);
      r := Done;
      var next := layer.(sealedPages := kept, descriptorGeneration := layer.descriptorGeneration + 1);
      if begin <= layer.activeBegin && end >= layer.ActiveEnd() {
        next := next.(activeCount := 0);
      } else if begin >= layer.activeBegin && begin < layer.ActiveEnd() && end >= layer.ActiveEnd() {
        next := next.(activeCount := begin - layer.activeBegin);
      } else if end > layer.activeBegin && begin < layer.ActiveEnd() {
        r, next := Failed(CutsTail), layer.(sealedPages := kept);
      }
      LayerEdit(sequences, id, l, next, multiset(gone));
      sequences := sequences[id := Edited(sequences[id], l, next)];
      assert References(sequences) - multiset(lost) == References(sequences);
    }

    /** References released but still held leave the books unbalanced. */
    lemma LossBreaks(lost: seq<nat>)
      requires WellFormed() && StoreValid(References(sequences) - multiset(lost))
      requires multiset(lost) <= References(sequences)
      ensures Valid() <==> lost == []
    {
      hide References, Counted, Queued;
      NothingLost(pageStore, References(sequences), lost);
      if lost == [] {
        assert References(sequences) - multiset(lost) == References(sequences);
      }
    }

    /** Removes the range from every layer in turn, stopping at the first that cannot. */
    method RemoveFromLayers(id: int, begin: int, end: int) returns (r: Outcome, ghost stuck: nat, ghost lost: seq<nat>)
      requires Valid() && id in sequences && begin <= end
      modifies this`sequences, this`pageStore, this`retired, this`pendingBytes, this`pendingCount, this`pendingPeak
      ensures WellFormed() && StoreValid(References(sequences) - multiset(lost)) && (Valid() <==> lost == [])
      ensures r == Done <==> forall i :: 0 <= i < layerCount ==> Removable(old(sequences)[id].layers[i], begin, end)
      ensures r != Failed(CutsPage) ==> lost == []
      ensures r == Done ==> sequences == old(sequences)[id := old(sequences)[id].(layers :=
        RemovedUpTo(old(sequences)[id].layers, layerCount, begin, end))]
      ensures r != Done ==> Stuck(old(sequences), sequences, id, stuck, begin, end, lost)
      ensures r in {Done, Failed(CutsPage), Failed(CutsTail)}
    {
      hide StoreValid, References, Removable, RemovedLayer, UntilCut, KeptRefs, LostIds;
      ghost var layers := sequences[id].layers;
      stuck, lost := 0, [];
      assert References(sequences) - multiset(lost) == References(sequences);
      RemovedNone(layers, begin, end);
      assert sequences == sequences[id := sequences[id].(layers := layers)];
      for l := 0 to layerCount
        invariant Valid() && lost == []
        invariant forall i :: 0 <= i < l ==> Removable(layers[i], begin, end)
        invariant sequences == old(sequences)[id := old(sequences)[id].(layers := RemovedUpTo(layers, l, begin, end))]
      {
        stuck := l;
        ghost var before := sequences;
        LostHeld(sequences, id, l, begin, end);
        assert sequences[id].layers[l] == layers[l];
        r, lost := RemoveFromLayer(id, l, begin, end);
        if r != Done {
          StuckSplit(layers, l, begin, end);
          assert lost == [] ==> multiset(lost) <= References(sequences);
          LossBreaks(lost);
          return;
        }
        RemovedNext(layers, l, begin, end);
        assert References(sequences) - multiset(lost) == References(sequences);
      }
      assert References(sequences) - multiset(lost) == References(sequences);
      r := Done;
    }

    /** Removes a range of positions, or with both bounds negative the whole sequence.  A removal that cuts a page
        after releasing another leaves the books unbalanced: exactly when pages are lost. */
    method Remove(id: int, positionBegin: int, positionEnd: int)
      returns (r: Outcome, ghost stuck: nat, ghost lost: seq<nat>)
      requires Valid()
      modifies this
      ensures globalGeneration == old(globalGeneration) + (if TookEffect(r) then 1 else 0)
      ensures Valid() <==> lost == []
      ensures r == Failed(BadArguments) <==> positionEnd < positionBegin
      ensures r == Failed(UnknownSequence) <==> positionEnd >= positionBegin && id !in old(sequences)
      ensures r in {Failed(BadArguments), Failed(UnknownSequence)} ==> sequences == old(sequences) && SameBooks()
      ensures positionBegin <= positionEnd && id in old(sequences) ==>
        if positionEnd < 0 then TookEffect(r) && sequences == old(sequences) - {id}
        else RemovalOutcome(old(sequences), sequences, id, Max0(positionBegin), positionEnd, r, stuck, lost)
      ensures r != Failed(CutsPage) ==> lost == []
      ensures TookEffect(r) && old(AllOrdered()) ==> AllOrdered() && r == Done
    {
      hide References, StoreValid, LayersOrdered, Removable, RemovedLayer, Stuck, SequenceIds;
      stuck, lost := 0, [];
      if positionEnd < positionBegin {
        return Failed(BadArguments), stuck, lost;
      }
      if id !in sequences {
        return Failed(UnknownSequence), stuck, lost;
      }
      if positionBegin < 0 && positionEnd < 0 {
        RemoveWhole(id);
        r := MaybeAudit();
        return;
      }
      var begin := if positionBegin < 0 then 0 else positionBegin;
      ghost var layers := sequences[id].layers;
      r, stuck, lost := RemoveFromLayers(id, begin, positionEnd);
      if r != Done {
        return;
      }
      RemovedAllOrdered(layers, begin, positionEnd);
      Retouch(id, sequences[id].(topologyGeneration := sequences[id].topologyGeneration + 1));
      globalGeneration := globalGeneration + 1;
      r := MaybeAudit();
    }

    method RemoveWhole(id: int)
      requires Valid() && id in sequences
      modifies this
      ensures activeSequences == |sequences| <= activePeak && globalGeneration == old(globalGeneration) + 1
      ensures Valid() && sequences == old(sequences) - {id}
    {
      hide References, StoreValid, SequenceIds;
      ReferencesWithout(sequences, id);
      ReleaseSequencePages(sequences[id].layers, References(sequences));
      assert References(sequences) - multiset(SequenceIds(sequences[id].layers)) == References(sequences - {id});
      sequences := sequences - {id};
      globalGeneration := globalGeneration + 1;
      UpdateActivePeak();
    }

    /** Updates what a sequence keeps besides its pages. */
    method Retouch(id: int, next: Sequence)
      requires Valid() && id in sequences && next.id == id && |next.layers| == layerCount
      requires SequenceIds(next.layers) == SequenceIds(sequences[id].layers)
      modifies this`sequences
      ensures Valid() && sequences == old(sequences)[id := next]
    {
      hide References, StoreValid, SequenceIds;
      SameReferences(sequences, id, next);
      sequences := sequences[id := next];
    }

    /** Replaces one layer by another that refers to the same pages. */
    method RetouchLayer(id: int, l: nat, next: Layer)
      requires Valid() && id in sequences && l < layerCount
      requires LayerIds(next.sealedPages) == LayerIds(sequences[id].layers[l].sealedPages)
      modifies this`sequences
      ensures Valid() && sequences == old(sequences)[id := Edited(old(sequences)[id], l, next)]
    {
      hide References, StoreValid, LayerIds;
      SamePages(sequences, id, l, next);
      sequences := sequences[id := Edited(sequences[id], l, next)];
    }

    // ---- shifting ---------------------------------------------------------------------------------

    /** Shifts every layer in turn, stopping at the first that cannot move. */
    method ShiftLayers(id: int, begin: nat, end: nat, delta: int) returns (ok: bool, ghost stuck: nat)
      requires Valid() && id in sequences
      modifies this`sequences
      ensures Valid()
      ensures ok <==> forall i :: 0 <= i < layerCount ==> Moves(old(sequences)[id].layers[i], begin, end, delta)
      ensures ok ==> sequences == old(sequences)[id := old(sequences)[id].(layers :=
        ShiftedUpTo(old(sequences)[id].layers, layerCount, begin, end, delta))]
      ensures !ok ==> ShiftStuck(old(sequences), sequences, id, stuck, begin, end, delta)
    {
      hide References, StoreValid, Moves, ShiftedLayer, HalfShifted;
      ghost var layers := sequences[id].layers;
      stuck := 0;
      ShiftedNone(layers, begin, end, delta);
      assert sequences == sequences[id := sequences[id].(layers := layers)];
      for l := 0 to layerCount
        invariant Valid()
        invariant forall i :: 0 <= i < l ==> Moves(layers[i], begin, end, delta)
        invariant sequences
             == old(sequences)[id := old(sequences)[id].(layers := ShiftedUpTo(layers, l, begin, end, delta))]
      {
        stuck := l;
        assert sequences[id].layers[l] == layers[l];
        var good, next := ShiftLayer(sequences[id].layers[l], begin, end, delta);
        ShiftedLayerIds(layers[l], next);
        RetouchLayer(id, l, next);
        if !good {
          return false, stuck;
        }
        ShiftedNext(layers, l, begin, end, delta);
      }
      ok := true;
    }

    /** Moves a range of positions by delta.  No page changes hands, whether or not it succeeds. */
    method Shift(id: int, begin: nat, end: nat, delta: int) returns (r: Outcome, ghost stuck: nat)
      requires Valid()
      modifies this
      ensures globalGeneration == old(globalGeneration) + (if TookEffect(r) then 1 else 0)
      ensures Valid() && SameBooks()
      ensures r == Failed(BadArguments) <==> end < begin
      ensures r == Failed(UnknownSequence) <==> end >= begin && id !in old(sequences)
      ensures r in {Failed(BadArguments), Failed(UnknownSequence)} ==> sequences == old(sequences)
      ensures TookEffect(r) <==> (
        && begin <= end && id in old(sequences)
        && forall i :: 0 <= i < layerCount ==> Moves(old(sequences)[id].layers[i], begin, end, delta))
      ensures TookEffect(r) ==> sequences == old(sequences)[id := old(sequences)[id].(
        layers := ShiftedUpTo(old(sequences)[id].layers, layerCount, begin, end, delta),
        logicalShift := old(sequences)[id].logicalShift + delta,
        topologyGeneration := old(sequences)[id].topologyGeneration + 1)]
      ensures begin <= end && id in old(sequences) && !TookEffect(r) ==>
        r == Failed(BadShift) && ShiftStuck(old(sequences), sequences, id, stuck, begin, end, delta)
      ensures TookEffect(r) && old(AllOrdered()) ==> AllOrdered() && r == Done
    {
      hide References, StoreValid, Moves, ShiftedLayer, HalfShifted, LayersOrdered, ShiftStuck, SequenceIds;
      stuck := 0;
      if end < begin {
        return Failed(BadArguments), stuck;
      }
      if id !in sequences {
        return Failed(UnknownSequence), stuck;
      }
      ghost var layers := sequences[id].layers;
      var ok;
      ok, stuck := ShiftLayers(id, begin, end, delta);
      if !ok {
        return Failed(BadShift), stuck;
      }
      ShiftedOrdered(layers, begin, end, delta);
      Retouch(id, sequences[id].(logicalShift := sequences[id].logicalShift + delta,
                                 topologyGeneration := sequences[id].topologyGeneration + 1));
      globalGeneration := globalGeneration + 1;
      r := MaybeAudit();
    }

    // ---- the active tail --------------------------------------------------------------------------

    /** Appends n tokens to the tail of one layer. */
    method Append(id: int, l: nat, tokenBegin: nat, n: nat) returns (r: Outcome)
      requires Valid()
      modifies this
      ensures globalGeneration == old(globalGeneration) + (if TookEffect(r) then 1 else 0)
      ensures Valid() && SameBooks()
      ensures r == Failed(BadArguments) <==> l >= layerCount
      ensures r == Failed(UnknownSequence) <==> l < layerCount && id !in old(sequences)
      ensures !TookEffect(r) ==> sequences == old(sequences)
      ensures l < layerCount && id in old(sequences) ==>
        match AppendLayer(old(sequences)[id].layers[l], tokenBegin, n, pageSize)
        case NotContiguous => r == Failed(NonContiguous)
        case Overfull => r == Failed(PageFull)
        case Next(layer) =>
          && TookEffect(r)
          && sequences == old(sequences)[id := Edited(old(sequences)[id], l, layer).(
                            topologyGeneration := old(sequences)[id].topologyGeneration + 1)]
      ensures TookEffect(r) ==> (r == Done <==> !auditing || AllOrdered())
    {
      hide References, StoreValid, LayersOrdered, SequenceIds, LayerIds;
      if l >= layerCount {
        return Failed(BadArguments);
      }
      if id !in sequences {
        return Failed(UnknownSequence);
      }
      var layer := sequences[id].layers[l];
      if layer.activeCount > 0 && tokenBegin != (layer.activeBegin + layer.activeCount) % UINT32 {
        return Failed(NonContiguous);
      }
      if (layer.activeCount + n) % UINT32 > pageSize {
        return Failed(PageFull);
      }
      if layer.activeCount == 0 {
        layer := layer.(activeBegin := tokenBegin);
      }
      layer := layer.(activeCount := (layer.activeCount + n) % UINT32, activeGeneration := layer.activeGeneration + 1);
      RetouchLayer(id, l, layer);
      Retouch(id, sequences[id].(topologyGeneration := sequences[id].topologyGeneration + 1));
      globalGeneration := globalGeneration + 1;
      r := MaybeAudit();
    }

    /** Starts a speculation: the baseline is the longest tail.  Returns 0 if it cannot start. */
    method SpeculationBegin(id: int) returns (ticket: nat)
      requires Valid()
      modifies this`sequences, this`nextSpeculation
      ensures Valid()
      ensures ticket == 0 <==> id !in old(sequences) || old(sequences)[id].speculation.active
      ensures ticket == 0 ==> sequences == old(sequences) && nextSpeculation == old(nextSpeculation)
      ensures ticket != 0 ==> ticket == old(nextSpeculation) < nextSpeculation
      ensures ticket != 0 ==> sequences == old(sequences)[id := Begun(old(sequences)[id], ticket)]
      ensures ticket != 0 ==> forall t :: Owns(id, t) <==> t == ticket
    {
      hide References, StoreValid, LayersOrdered, SequenceIds;
      if id !in sequences || sequences[id].speculation.active {
        return 0;
      }
      var layers, baseline := sequences[id].layers, 0;
      for l := 0 to |layers|
        invariant sequences == old(sequences) && Valid() && nextSpeculation == old(nextSpeculation)
        invariant baseline == LongestTail(layers[..l])
      {
        LongestTailNext(layers, l);
        if layers[l].activeCount > baseline {
          baseline := layers[l].activeCount;
        }
      }
      assert layers[..|layers|] == layers;
      ticket := nextSpeculation;
      nextSpeculation := nextSpeculation + 1;
      Retouch(id, sequences[id].(speculation := Speculation(ticket, baseline, sequences[id].topologyGeneration, true)));
    }

    predicate Owns(id: int, ticket: nat)
      reads this`sequences
    {
      ticket != 0 && id in sequences && sequences[id].speculation.active && sequences[id].speculation.id == ticket
    }

    /** Keeps the first accepted tokens of the speculation in every layer; a layer that cannot stops it part way. */
    method SpeculationCommit(id: int, ticket: nat, accepted: nat) returns (r: Outcome, ghost stuck: nat)
      requires Valid()
      modifies this
      ensures globalGeneration == old(globalGeneration) + (if TookEffect(r) then 1 else 0)
      ensures Valid() && SameBooks()
      ensures r == Failed(BadTransaction) <==> !old(Owns(id, ticket))
      ensures r == Failed(BadTransaction) ==> sequences == old(sequences)
      ensures old(Owns(id, ticket)) ==> var s := old(sequences)[id];
        && (TookEffect(r) <==> CanCommit(s, accepted))
        && (TookEffect(r) ==> sequences == old(sequences)[id := Committed(s, accepted)])
        && (!TookEffect(r) ==> r == Failed(BadCommit) && CommitStuck(old(sequences), sequences, id, stuck, accepted))
      ensures TookEffect(r) ==> forall t :: !Owns(id, t)
      ensures TookEffect(r) ==> (r == Done <==> !auditing || AllOrdered())
    {
      hide References, StoreValid, LayersOrdered, SequenceIds, LayerIds;
      stuck := 0;
      if !Owns(id, ticket) {
        return Failed(BadTransaction), stuck;
      }
      ghost var layers := sequences[id].layers;
      var baseline := sequences[id].speculation.baselineCount;
      assert WithCountUpTo(layers, 0, baseline + accepted) == layers;
      assert sequences == sequences[id := sequences[id].(layers := layers)];
      for l := 0 to layerCount
        invariant Valid() && SameBooks() && globalGeneration == old(globalGeneration)
        invariant forall i :: 0 <= i < l ==> Committable(layers[i], baseline, accepted)
        invariant sequences
             == old(sequences)[id := old(sequences)[id].(layers := WithCountUpTo(layers, l, baseline + accepted))]
      {
        stuck := l;
        var layer := sequences[id].layers[l];
        if layer.activeCount < baseline || accepted > layer.activeCount - baseline {
          return Failed(BadCommit), stuck;
        }
        RetouchLayer(id, l, layer.(activeCount := baseline + accepted, activeGeneration := layer.activeGeneration + 1));
        WithCountNext(layers, l, baseline + accepted);
      }
      Retouch(id, sequences[id].(speculation := NO_SPECULATION,
                                 topologyGeneration := sequences[id].topologyGeneration + 1));
      globalGeneration := globalGeneration + 1;
      r := MaybeAudit();
    }

    /** Sets every tail back to the baseline. */
    method SpeculationRollback(id: int, ticket: nat) returns (r: Outcome)
      requires Valid()
      modifies this
      ensures globalGeneration == old(globalGeneration) + (if TookEffect(r) then 1 else 0)
      ensures Valid() && SameBooks()
      ensures r == Failed(BadTransaction) <==> !old(Owns(id, ticket))
      ensures r == Failed(BadTransaction) ==> sequences == old(sequences)
      ensures old(Owns(id, ticket)) ==>
        TookEffect(r) && sequences == old(sequences)[id := RolledBack(old(sequences)[id])]
      ensures TookEffect(r) ==> forall t :: !Owns(id, t)
      ensures TookEffect(r) ==> (r == Done <==> !auditing || AllOrdered())
    {
      hide References, StoreValid, LayersOrdered, SequenceIds, LayerIds;
      if !Owns(id, ticket) {
        return Failed(BadTransaction);
      }
      ghost var layers := sequences[id].layers;
      var baseline := sequences[id].speculation.baselineCount;
      assert WithCountUpTo(layers, 0, baseline) == layers;
      assert sequences == sequences[id := sequences[id].(layers := layers)];
      for l := 0 to layerCount
        invariant Valid() && SameBooks() && globalGeneration == old(globalGeneration)
        invariant sequences == old(sequences)[id := old(sequences)[id].(layers := WithCountUpTo(layers, l, baseline))]
      {
        var layer := sequences[id].layers[l];
        RetouchLayer(id, l, layer.(activeCount := baseline, activeGeneration := layer.activeGeneration + 1));
        WithCountNext(layers, l, baseline);
      }
      Retouch(id, sequences[id].(speculation := NO_SPECULATION,
                                 topologyGeneration := sequences[id].speculation.baselineGeneration));
      globalGeneration := globalGeneration + 1;
      r := MaybeAudit();
    }

    // ---- reclamation ------------------------------------------------------------------------------

    /** Frees every retired page: the queue and the pending bytes end empty, the live pages stay. */
    method Reclaim() returns (r: Outcome)
      requires Valid()
      modifies this`pageStore, this`retired, this`pendingBytes, this`pendingCount, this`pagesReclaimed,
        this`invariantFailures
      ensures Valid() && TookEffect(r) && (r == Done <==> !auditing || AllOrdered())
      ensures retired == [] && pendingBytes == 0 && pendingCount == 0
      ensures pageStore == (map p | p in old(pageStore) && !old(pageStore)[p].retired :: old(pageStore)[p])
      ensures pagesReclaimed == old(pagesReclaimed) + |old(retired)|
    {
      hide References, LayersOrdered, Reclaimed, PendingBytes, Counted, Queued;
      ghost var store, queue, refs := pageStore, retired, References(sequences);
      ReclaimNone(store, queue);
      for i := 0 to |retired|
        invariant retired == queue && pageStore == Reclaimed(store, queue, i)
        invariant pendingBytes + PendingBytes(queue[..i]) == PendingBytes(queue) <= pendingPeak
        invariant pagesReclaimed == old(pagesReclaimed) + i
      {
        ReclaimNext(store, queue, refs, i);
        PendingPrefix(queue, i + 1);
        var p := retired[i].pageId;
        if p !in pageStore || pageStore[p].refcount != 0 {
          assert false;
          return Failed(BadQueue);
        }
        pageStore := pageStore - {p};
        pagesReclaimed := pagesReclaimed + 1;
        pendingBytes := pendingBytes - retired[i].residentBytes;
      }
      assert queue[..|queue|] == queue;
      ReclaimAll(store, queue, refs);
      retired := [];
      pendingCount := 0;
      r := MaybeAudit();
    }
  }
}