/** Every operation of the cache, as a change of its sequences, and what all of them keep. */
module CacheRuns {
  import opened CacheBooks
  import opened CacheModel
  import opened SequenceCache

  // ---- the length of a tail -------------------------------------------------------------------------------

  /** No tail, and no baseline of a speculation, is longer than a page. */
  ghost predicate Within(s: Sequence, pageSize: nat) {
    && (forall l :: 0 <= l < |s.layers| ==> s.layers[l].activeCount <= pageSize)
    && s.speculation.baselineCount <= pageSize
  }

  ghost predicate AllWithin(sequences: map<int, Sequence>, pageSize: nat) {
    forall id :: id in sequences ==> Within(sequences[id], pageSize)
  }

  /** What a call may make of the sequences: one of the cache's operations, complete or stuck. */
  datatype Change =
    | Created(id: int, layerCount: nat, generation: nat)
    | Copied(id: int, destination: int, begin: nat, end: nat, generation: nat)
    | Removed(id: int, begin: nat, end: nat, r: Outcome, stuck: nat, lost: seq<nat>)
    | Shifted(id: int, begin: nat, end: nat, delta: int, stuck: nat)
    | Extended(id: int, l: nat, tokenBegin: nat, n: nat)
    | SpeculationBegun(id: int, ticket: nat)
    | SpeculationKept(id: int, accepted: nat, stuck: nat)
    | SpeculationUndone(id: int)
    | Dropped(id: int)
    | Nothing
  {
    /** These are the new sequences that the operation's contract promises. */
    ghost predicate Leads(before: map<int, Sequence>, after: map<int, Sequence>, pageSize: nat) {
      if Nothing? then after == before
      else if Created? then after == before[id := NewSequence(id, layerCount, generation)]
      else if id !in before then after == before
      else
        var s := before[id];
        match this
        case Copied(_, destination, begin, end, generation) =>
          after == before[destination :=
            Sequence(destination, CopiedLayers(s.layers, begin, end), generation, 0, NO_SPECULATION)]
        case Removed(_, begin, end, r, stuck, lost) =>
          RemovalOutcome(before, after, id, begin, end, r, stuck, lost)
        case Shifted(_, begin, end, delta, stuck) =>
          || ShiftStuck(before, after, id, stuck, begin, end, delta)
          || (&& (forall i :: 0 <= i < |s.layers| ==> Moves(s.layers[i], begin, end, delta))
              && after == before[id := s.(layers := ShiftedUpTo(s.layers, |s.layers|, begin, end, delta),
                                          logicalShift := s.logicalShift + delta,
                                          topologyGeneration := s.topologyGeneration + 1)])
        case Extended(_, l, tokenBegin, n) =>
          && l < |s.layers| && AppendLayer(s.layers[l], tokenBegin, n, pageSize).Next?
          && after == before[id := Edited(s, l, AppendLayer(s.layers[l], tokenBegin, n, pageSize).layer).(
                                     topologyGeneration := s.topologyGeneration + 1)]
        case SpeculationBegun(_, ticket) => after == before[id := Begun(s, ticket)]
        case SpeculationKept(_, accepted, stuck) =>
          || CommitStuck(before, after, id, stuck, accepted)
          || (CanCommit(s, accepted) && after == before[id := Committed(s, accepted)])
        case SpeculationUndone(_) => after == before[id := RolledBack(s)]
        case Dropped(_) => after == before - {id}
    }
  }

  lemma RemovedWithin(before: map<int, Sequence>, after: map<int, Sequence>, id: int, begin: int, end: int, r: Outcome,
                      stuck: nat, lost: seq<nat>, pageSize: nat)
    requires id in before && Within(before[id], pageSize)
    requires RemovalOutcome(before, after, id, begin, end, r, stuck, lost)
    ensures id in after && Within(after[id], pageSize)
    ensures after == before[id := after[id]]
  {
    hide Cuts, KeptRefs, UntilCut, LostIds;
  }

  lemma ShiftedWithin(layers: seq<Layer>, l: nat, begin: nat, end: nat, delta: int)
    requires l <= |layers| && forall i :: 0 <= i < l ==> Moves(layers[i], begin, end, delta)
    ensures forall i :: 0 <= i < |layers| ==>
      ShiftedUpTo(layers, l, begin, end, delta)[i].activeCount == layers[i].activeCount
  {
    hide Movable, ShiftedRef, Ordered;
  }

  lemma CopiedWithin(layers: seq<Layer>, begin: nat, end: nat)
    ensures forall i :: 0 <= i < |layers| ==> CopiedLayers(layers, begin, end)[i].activeCount <= layers[i].activeCount
  {
    hide CopiedRefs;
  }

  /** Main result: over every operation of the cache no tail outgrows a page. */
  lemma TailsStayWithin(before: map<int, Sequence>, change: Change, after: map<int, Sequence>, pageSize: nat)
    requires AllWithin(before, pageSize) && change.Leads(before, after, pageSize)
    ensures AllWithin(after, pageSize)
  {
    hide Moves, RemovalOutcome, ShiftedUpTo, CopiedLayer, HalfShifted, LongestTail;
    if !change.Nothing? && !change.Created? && change.id in before {
      var s := before[change.id];
      assert Within(s, pageSize);
      match change
      case Copied(_, _, begin, end, _) => CopiedWithin(s.layers, begin, end);
      case Removed(_, begin, end, r, stuck, lost) =>
        RemovedWithin(before, after, change.id, begin, end, r, stuck, lost, pageSize);
      case Shifted(_, begin, end, delta, stuck) =>
        if ShiftStuck(before, after, change.id, stuck, begin, end, delta) {
          ShiftedWithin(s.layers, stuck, begin, end, delta);
          HalfWithin(s.layers[stuck], begin, end, delta);
        } else {
          ShiftedWithin(s.layers, |s.layers|, begin, end, delta);
        }
      case _ =>
    }
  }

  lemma HalfWithin(layer: Layer, begin: nat, end: nat, delta: int)
    ensures HalfShifted(layer, begin, end, delta).activeCount == layer.activeCount
  {
  }
  // ---- the operations -------------------------------------------------------------------------------------

  datatype Call =
    | Create(id: int)
    | Copy(id: int, destination: int, begin: nat, end: nat)
    | Remove(id: int, positionBegin: int, positionEnd: int)
    | Shift(id: int, begin: nat, end: nat, delta: int)
    | Append(id: int, l: nat, tokenBegin: nat, n: nat)
    | SpeculationBegin(id: int)
    | SpeculationCommit(id: int, ticket: nat, accepted: nat)
    | SpeculationRollback(id: int, ticket: nat)
    | Reclaim

  /** Makes the call, and says which change it was. */
  method Perform(cache: Cache, call: Call) returns (ghost change: Change)
    requires cache.Valid()
    modifies cache
    ensures change.Leads(old(cache.sequences), cache.sequences, cache.pageSize)
  {
    hide Change.Leads;
    change := Nothing;
    match call {
      case Create(id) => change := PerformCreate(cache, id);
      case Copy(id, destination, begin, end) => change := PerformCopy(cache, id, destination, begin, end);
      case Remove(id, positionBegin, positionEnd) => change := PerformRemove(cache, id, positionBegin, positionEnd);
      case Shift(id, begin, end, delta) => change := PerformShift(cache, id, begin, end, delta);
      case Append(id, l, tokenBegin, n) => change := PerformAppend(cache, id, l, tokenBegin, n);
      case SpeculationBegin(id) => change := PerformBegin(cache, id);
      case SpeculationCommit(id, ticket, accepted) => change := PerformCommit(cache, id, ticket, accepted);
      case SpeculationRollback(id, ticket) => change := PerformRollback(cache, id, ticket);
      case Reclaim =>
        var r := cache.Reclaim();
        NothingLeads(cache.sequences, cache.pageSize);
    }
  }

  lemma NothingLeads(sequences: map<int, Sequence>, pageSize: nat)
    ensures Nothing.Leads(sequences, sequences, pageSize)
  {
  }

  lemma LayersOf(cache: Cache, id: int)
    requires cache.Valid() && id in cache.sequences
    ensures |cache.sequences[id].layers| == cache.layerCount
  {
  }

  method PerformCreate(cache: Cache, id: int) returns (ghost change: Change)
    requires cache.Valid()
    modifies cache
    ensures change.Leads(old(cache.sequences), cache.sequences, cache.pageSize)
  {
    hide Cache.Valid, NewSequence;
    ghost var generation := cache.globalGeneration + 1;
    var r := cache.Create(id);
    change := if TookEffect(r) then Created(id, cache.layerCount, generation) else Nothing;
  }

  method PerformCopy(cache: Cache, id: int, destination: int, begin: nat, end: nat) returns (ghost change: Change)
    requires cache.Valid()
    modifies cache
    ensures change.Leads(old(cache.sequences), cache.sequences, cache.pageSize)
  {
    hide Cache.Valid, CopiedLayers;
    ghost var generation := cache.globalGeneration + 1;
    var r := cache.Copy(id, destination, begin, end);
    change := if TookEffect(r) then Copied(id, destination, begin, end, generation) else Nothing;
  }

  method PerformRemove(cache: Cache, id: int, positionBegin: int, positionEnd: int) returns (ghost change: Change)
    requires cache.Valid()
    modifies cache
    ensures change.Leads(old(cache.sequences), cache.sequences, cache.pageSize)
  {
    hide Cache.Valid, RemovalOutcome;
    var known := positionBegin <= positionEnd && id in cache.sequences;
    ghost var r, stuck, lost;
    r, stuck, lost := cache.Remove(id, positionBegin, positionEnd);
    change := if !known then Nothing
              else if positionEnd < 0 then Dropped(id)
              else Removed(id, Max0(positionBegin), positionEnd, r, stuck, lost);
  }

  method PerformShift(cache: Cache, id: int, begin: nat, end: nat, delta: int) returns (ghost change: Change)
    requires cache.Valid()
    modifies cache
    ensures change.Leads(old(cache.sequences), cache.sequences, cache.pageSize)
  {
    hide Cache.Valid, Moves, ShiftedUpTo, ShiftStuck;
    if id in cache.sequences {
      LayersOf(cache, id);
    }
    var known := begin <= end && id in cache.sequences;
    ghost var r, stuck;
    r, stuck := cache.Shift(id, begin, end, delta);
    change := if known then Shifted(id, begin, end, delta, stuck) else Nothing;
  }

  method PerformAppend(cache: Cache, id: int, l: nat, tokenBegin: nat, n: nat) returns (ghost change: Change)
    requires cache.Valid()
    modifies cache
    ensures change.Leads(old(cache.sequences), cache.sequences, cache.pageSize)
  {
    hide Cache.Valid, AppendLayer, Edited;
    if id in cache.sequences {
      LayersOf(cache, id);
    }
    var r := cache.Append(id, l, tokenBegin, n);
    change := if TookEffect(r) then Extended(id, l, tokenBegin, n) else Nothing;
  }

  method PerformBegin(cache: Cache, id: int) returns (ghost change: Change)
    requires cache.Valid()
    modifies cache
    ensures change.Leads(old(cache.sequences), cache.sequences, cache.pageSize)
  {
    hide Cache.Valid, Begun;
    var ticket := cache.SpeculationBegin(id);
    change := if ticket != 0 then SpeculationBegun(id, ticket) else Nothing;
  }

  method PerformCommit(cache: Cache, id: int, ticket: nat, accepted: nat) returns (ghost change: Change)
    requires cache.Valid()
    modifies cache
    ensures change.Leads(old(cache.sequences), cache.sequences, cache.pageSize)
  {
    hide Cache.Valid, CanCommit, Committed, CommitStuck;
    var owned := cache.Owns(id, ticket);
    ghost var r, stuck;
    r, stuck := cache.SpeculationCommit(id, ticket, accepted);
    change := if owned then SpeculationKept(id, accepted, stuck) else Nothing;
  }

  method PerformRollback(cache: Cache, id: int, ticket: nat) returns (ghost change: Change)
    requires cache.Valid()
    modifies cache
    ensures change.Leads(old(cache.sequences), cache.sequences, cache.pageSize)
  {
    hide Cache.Valid, RolledBack;
    var owned := cache.Owns(id, ticket);
    var r := cache.SpeculationRollback(id, ticket);
    change := if owned then SpeculationUndone(id) else Nothing;
  }
}
