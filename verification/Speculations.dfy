/** Whole speculations: begin, any run of appends, then commit or roll back. */
module Speculations {
  import opened Common
  import opened CacheBooks
  import opened CacheModel

  /** Positions [begin, begin + count) of a tail, in 32-bit arithmetic. */
  function Positions(begin: nat, count: nat): (r: seq<nat>)
    ensures |r| == count && forall i :: 0 <= i < count ==> r[i] == (begin + i) % UINT32
  {
    seq(count, i requires 0 <= i < count => (begin + i) % UINT32)
  }

  function Tail(layer: Layer): seq<nat> {
    Positions(layer.activeBegin, layer.activeCount)
  }

  datatype AppendCall = AppendCall(layer: nat, tokenBegin: nat, count: nat)

  /** The call succeeds. */
  predicate Accepts(s: Sequence, call: AppendCall, pageSize: nat) {
    call.layer < |s.layers| && AppendLayer(s.layers[call.layer], call.tokenBegin, call.count, pageSize).Next?
  }

  function Appended(s: Sequence, call: AppendCall, pageSize: nat): Sequence
    requires Accepts(s, call, pageSize)
  {
    Edited(s, call.layer, AppendLayer(s.layers[call.layer], call.tokenBegin, call.count, pageSize).layer)
      .(topologyGeneration := s.topologyGeneration + 1)
  }

  /** Every call of the run succeeds. */
  predicate Runs(s: Sequence, calls: seq<AppendCall>, pageSize: nat)
    decreases |calls|, 0
  {
    calls == [] || (
      var init, last := calls[..|calls| - 1], calls[|calls| - 1];
      Runs(s, init, pageSize) && Accepts(After(s, init, pageSize), last, pageSize))
  }

  function After(s: Sequence, calls: seq<AppendCall>, pageSize: nat): (r: Sequence)
    requires Runs(s, calls, pageSize)
    ensures |r.layers| == |s.layers| && r.speculation == s.speculation && r.id == s.id
    decreases |calls|, 1
  {
    if calls == [] then s
    else Appended(After(s, calls[..|calls| - 1], pageSize), calls[|calls| - 1], pageSize)
  }

  /** The positions a run appends to one layer, in order. */
  function NewTokens(calls: seq<AppendCall>, l: nat): seq<nat> {
    if calls == [] then []
    else
      var last := calls[|calls| - 1];
      NewTokens(calls[..|calls| - 1], l) + (if last.layer == l then Positions(last.tokenBegin, last.count) else [])
  }

  lemma PositionsWrap(begin: nat, begin': nat, count: nat)
    requires begin % UINT32 == begin' % UINT32
    ensures Positions(begin, count) == Positions(begin', count)
  {
    forall i | 0 <= i < count
      ensures Positions(begin, count)[i] == Positions(begin', count)[i]
    {
      ShiftResidue(begin, i);
      ShiftResidue(begin', i);
    }
  }

  lemma ShiftResidue(a: nat, i: nat)
    ensures (a + i) % UINT32 == (a % UINT32 + i) % UINT32
  {
    var q := a / UINT32;
    assert a + i == q * UINT32 + (a % UINT32 + i);
  }

  lemma PositionsSplit(begin: nat, m: nat, n: nat)
    ensures Positions(begin, m + n) == Positions(begin, m) + Positions(begin + m, n)
  {
  }

  /** An accepted append adds its positions to the tail exactly when the count does not wrap. */
  lemma AppendAddsTokens(layer: Layer, tokenBegin: nat, n: nat, pageSize: nat)
    requires AppendLayer(layer, tokenBegin, n, pageSize).Next? && layer.activeCount < UINT32
    ensures Tail(AppendLayer(layer, tokenBegin, n, pageSize).layer) == Tail(layer) + Positions(tokenBegin, n)
       <==> layer.activeCount + n < UINT32
  {
    var next := AppendLayer(layer, tokenBegin, n, pageSize).layer;
    if layer.activeCount + n < UINT32 {
      PositionsSplit(next.activeBegin, layer.activeCount, n);
      if layer.activeCount > 0 {
        PositionsWrap(layer.activeBegin + layer.activeCount, tokenBegin % UINT32, n);
        PositionsWrap(tokenBegin, tokenBegin % UINT32, n);
      } else {
        assert Tail(next) == Positions(tokenBegin, n);
      }
    } else {
      assert |Tail(next)| < |Tail(layer) + Positions(tokenBegin, n)|;
    }
  }

  /** An append is accepted exactly when it goes on from the last position of the tail, if there is one, and the number
      of all positions, in 32 bits, is at most a page. */
  lemma AppendAccepted(layer: Layer, tokenBegin: nat, n: nat, pageSize: nat)
    requires layer.activeCount < UINT32 && tokenBegin < UINT32
    ensures AppendLayer(layer, tokenBegin, n, pageSize).Next? <==> (
      && (Tail(layer) != [] ==> tokenBegin == (Tail(layer)[|Tail(layer)| - 1] + 1) % UINT32)
      && |Tail(layer) + Positions(tokenBegin, n)| % UINT32 <= pageSize)
  {
    if layer.activeCount > 0 {
      ShiftResidue(layer.activeBegin + (layer.activeCount - 1), 1);
    }
  }

  /** A tail of 5 tokens, given 2^32 - 2 more, is accepted as a tail of 3. */
  lemma AppendCanWrap()
    ensures var layer := Layer([], 0, 5, 0, 0);
            var step := AppendLayer(layer, 5, UINT32 - 2, 16);
            step.Next? && step.layer.activeCount == 3
  {
  }

  // ---- runs of appends ----------------------------------------------------------------------------

  /** Everything a layer was ever given: its tail before the run, then the run's tokens for it. */
  function Given(before: Layer, calls: seq<AppendCall>, l: nat): seq<nat> {
    Tail(before) + NewTokens(calls, l)
  }

  /** The first 2^32 positions follow one another. */
  ghost predicate Contiguous(all: seq<nat>) {
    forall i :: 0 <= i < |all| && i < UINT32 ==> all[i] == (all[0] + i) % UINT32
  }

  /** What a layer looks like after being given these tokens: their number wraps, and while it has not, they are the
      tail. */
  ghost predicate Holding(layer: Layer, all: seq<nat>) {
    Contiguous(all) && layer.activeCount == |all| % UINT32 && (|all| < UINT32 ==> Tail(layer) == all)
  }

  lemma AppendHolding(layer: Layer, all: seq<nat>, tokenBegin: nat, n: nat, pageSize: nat)
    requires Holding(layer, all) && AppendLayer(layer, tokenBegin, n, pageSize).Next?
    ensures Holding(AppendLayer(layer, tokenBegin, n, pageSize).layer, all + Positions(tokenBegin, n))
  {
    hide Positions;
    var more := Positions(tokenBegin, n);
    AppendAddsTokens(layer, tokenBegin, n, pageSize);
    ShiftResidue(|all|, n);
    if |all| < UINT32 {
      forall i | 0 <= i < |all + more| && i < UINT32
        ensures (all + more)[i] == ((all + more)[0] + i) % UINT32
      {
        if i >= |all| {
          NextPosition(layer, all, tokenBegin, i - |all|);
        }
      }
    }
  }

  /** An appended position goes on from the first position of the tail. */
  lemma NextPosition(layer: Layer, all: seq<nat>, tokenBegin: nat, k: nat)
    requires |all| < UINT32 && Tail(layer) == all && layer.activeCount == |all|
    requires layer.activeCount > 0 ==> tokenBegin == (layer.activeBegin + layer.activeCount) % UINT32
    ensures (tokenBegin + k) % UINT32 == ((if |all| > 0 then all[0] else tokenBegin % UINT32) + (|all| + k)) % UINT32
  {
    if |all| > 0 {
      assert all[0] == layer.activeBegin % UINT32;
      ShiftResidue(layer.activeBegin + |all|, k);
      ShiftResidue(layer.activeBegin, |all| + k);
    } else {
      ShiftResidue(tokenBegin, k);
    }
  }

  lemma TailContiguous(layer: Layer)
    requires layer.activeCount < UINT32
    ensures Holding(layer, Tail(layer))
  {
    forall i | 0 <= i < layer.activeCount
      ensures Tail(layer)[i] == (Tail(layer)[0] + i) % UINT32
    {
      ShiftResidue(layer.activeBegin, i);
    }
  }

  lemma NothingGiven(before: Layer, l: nat)
    ensures Given(before, [], l) == Tail(before)
  {
  }

  lemma GivenNext(before: Layer, calls: seq<AppendCall>, l: nat)
    requires calls != []
    ensures var init, last := calls[..|calls| - 1], calls[|calls| - 1];
            Given(before, calls, l)
              == if last.layer == l then Given(before, init, l) + Positions(last.tokenBegin, last.count)
                 else Given(before, init, l)
  {
  }

  /** After any run of appends a layer holds what it was given, and its pages are untouched. */
  lemma {:induction false} RunHolding(s: Sequence, calls: seq<AppendCall>, pageSize: nat, l: nat)
    requires Runs(s, calls, pageSize) && l < |s.layers| && s.layers[l].activeCount < UINT32
    ensures Holding(After(s, calls, pageSize).layers[l], Given(s.layers[l], calls, l))
    ensures After(s, calls, pageSize).layers[l].sealedPages == s.layers[l].sealedPages
  {
    hide Positions, Holding, Given;
    if calls == [] {
      TailContiguous(s.layers[l]);
      NothingGiven(s.layers[l], l);
    } else {
      var init, last := calls[..|calls| - 1], calls[|calls| - 1];
      RunHolding(s, init, pageSize, l);
      GivenNext(s.layers[l], calls, l);
      if last.layer == l {
        AppendHolding(After(s, init, pageSize).layers[l], Given(s.layers[l], init, l), last.tokenBegin, last.count,
                      pageSize);
      }
    }
  }

  /** Main result: after any run the tail is the old tail and then the run's tokens, exactly while their number fits
      32 bits. */
  lemma RunAddsTokens(s: Sequence, calls: seq<AppendCall>, pageSize: nat, l: nat)
    requires Runs(s, calls, pageSize) && l < |s.layers| && s.layers[l].activeCount < UINT32
    ensures Tail(After(s, calls, pageSize).layers[l]) == Given(s.layers[l], calls, l)
       <==> |Given(s.layers[l], calls, l)| < UINT32
  {
    hide Positions, Runs, After, NewTokens;
    RunHolding(s, calls, pageSize, l);
  }

  /** The tail still begins with the first token the layer was given. */
  predicate StartKept(end: Layer, all: seq<nat>) {
    all == [] || end.activeBegin % UINT32 == all[0]
  }

  /** A tail that was never emptied by wrapping still begins where it did. */
  lemma ShortKeepsStart(end: Layer, all: seq<nat>)
    requires Holding(end, all) && |all| < UINT32
    ensures StartKept(end, all)
  {
  }

  /** A tail of 5 tokens, given 2^32 - 5 more, is empty; 3 tokens at position 100 then start a new tail, and cut or
      restored to 5 it begins at 100. */
  lemma WrapMovesStart()
    ensures var s := Sequence(1, [Layer([], 0, 5, 0, 0)], 1, 0, NO_SPECULATION);
            var calls := [AppendCall(0, 5, UINT32 - 5), AppendCall(0, 100, 3)];
            Runs(s, calls, 16) && After(s, calls, 16).layers[0].activeBegin == 100
  {
    var s := Sequence(1, [Layer([], 0, 5, 0, 0)], 1, 0, NO_SPECULATION);
    var calls := [AppendCall(0, 5, UINT32 - 5), AppendCall(0, 100, 3)];
    assert calls[..1] == [AppendCall(0, 5, UINT32 - 5)] && calls[..1][..0] == [];
    assert Runs(s, calls[..1][..0], 16) && After(s, calls[..1][..0], 16) == s;
    assert Runs(s, calls[..1], 16);
    assert After(s, calls[..1], 16).layers[0].activeCount == 0;
  }

  // ---- commit and roll back -----------------------------------------------------------------------

  predicate EqualTails(layers: seq<Layer>) {
    forall i, j :: 0 <= i < |layers| && 0 <= j < |layers| ==> layers[i].activeCount == layers[j].activeCount
  }

  lemma BaselineOfEqual(layers: seq<Layer>)
    ensures EqualTails(layers) <==> forall l :: 0 <= l < |layers| ==> layers[l].activeCount == LongestTail(layers)
  {
    if EqualTails(layers) {
      forall l | 0 <= l < |layers|
        ensures layers[l].activeCount == LongestTail(layers)
      {
      }
    }
  }

  /** Every layer, its token count wrapped to 32 bits, has the accepted tokens beyond the longest tail. */
  predicate Enough(layers: seq<Layer>, calls: seq<AppendCall>, accepted: nat) {
    forall l :: 0 <= l < |layers| ==> LongestTail(layers) + accepted <= |Given(layers[l], calls, l)| % UINT32
  }

  /** Exactly then a commit succeeds. */
  lemma CommitSucceeds(s: Sequence, ticket: nat, calls: seq<AppendCall>, pageSize: nat, accepted: nat)
    requires forall l :: 0 <= l < |s.layers| ==> s.layers[l].activeCount < UINT32
    requires Runs(Begun(s, ticket), calls, pageSize)
    ensures CanCommit(After(Begun(s, ticket), calls, pageSize), accepted) <==> Enough(s.layers, calls, accepted)
  {
    hide Positions, Runs, After, LongestTail, Given, Contiguous;
    var end := After(Begun(s, ticket), calls, pageSize);
    forall l | 0 <= l < |s.layers|
      ensures Committable(end.layers[l], LongestTail(s.layers), accepted)
         <==> LongestTail(s.layers) + accepted <= |Given(s.layers[l], calls, l)| % UINT32
    {
      RunHolding(Begun(s, ticket), calls, pageSize, l);
    }
    if Enough(s.layers, calls, accepted) {
      assert forall l :: 0 <= l < |s.layers| ==> Committable(end.layers[l], LongestTail(s.layers), accepted);
    } else {
      var l :| 0 <= l < |s.layers| && LongestTail(s.layers) + accepted > |Given(s.layers[l], calls, l)| % UINT32;
      assert !Committable(end.layers[l], LongestTail(s.layers), accepted);
    }
  }

  /** What a successful commit should leave: the old tail and the first accepted of the new tokens. */
  ghost predicate Kept(s: Sequence, r: Sequence, calls: seq<AppendCall>, accepted: nat)
    requires |r.layers| == |s.layers|
  {
    forall l :: 0 <= l < |s.layers| ==> KeptLayer(s.layers[l], r.layers[l], NewTokens(calls, l), accepted)
  }

  ghost predicate KeptLayer(before: Layer, after: Layer, tokens: seq<nat>, accepted: nat) {
    accepted <= |tokens| && Tail(after) == Tail(before) + tokens[..accepted] && after.sealedPages == before.sealedPages
  }

  /** Cut to some count, the tail is the first so many of the given tokens exactly when it begins with the first. */
  lemma CutTokens(end: Layer, all: seq<nat>, count: nat)
    requires Contiguous(all) && count <= |all| && count < UINT32
    ensures Tail(WithCount(end, count)) == all[..count] <==> count == 0 || StartKept(end, all)
  {
    var tail := Tail(WithCount(end, count));
    if count > 0 && StartKept(end, all) {
      forall i | 0 <= i < count
        ensures tail[i] == all[i]
      {
        ShiftResidue(end.activeBegin, i);
      }
    } else if count > 0 {
      assert tail[0] != all[..count][0];
    }
  }

  lemma KeptLayerIff(before: Layer, end: Layer, tokens: seq<nat>, baseline: nat, accepted: nat)
    requires Holding(end, Tail(before) + tokens) && end.sealedPages == before.sealedPages
    requires before.activeCount <= baseline && Committable(end, baseline, accepted)
    ensures KeptLayer(before, WithCount(end, baseline + accepted), tokens, accepted)
       <==> before.activeCount == baseline && (baseline + accepted == 0 || StartKept(end, Tail(before) + tokens))
  {
    hide StartKept, Contiguous;
    var all := Tail(before) + tokens;
    if before.activeCount == baseline {
      CutTokens(end, all, baseline + accepted);
      assert all[..baseline + accepted] == Tail(before) + tokens[..accepted];
    } else {
      assert |Tail(WithCount(end, baseline + accepted))| == baseline + accepted;
    }
  }

  /** Every layer's tail still begins with the first token it was given. */
  predicate StartsKept(s: Sequence, end: Sequence, calls: seq<AppendCall>)
    requires |end.layers| == |s.layers|
  {
    forall l :: 0 <= l < |s.layers| ==> StartKept(end.layers[l], Given(s.layers[l], calls, l))
  }

  /** Main result: a successful commit leaves every layer its old tail and exactly the first accepted new tokens, if and
      only if the tails were equally long at the start and none that is kept was begun anew. */
  lemma CommitKeepsAccepted(s: Sequence, ticket: nat, calls: seq<AppendCall>, pageSize: nat, accepted: nat)
    requires forall l :: 0 <= l < |s.layers| ==> s.layers[l].activeCount < UINT32
    requires Runs(Begun(s, ticket), calls, pageSize) && CanCommit(After(Begun(s, ticket), calls, pageSize), accepted)
    ensures var end := After(Begun(s, ticket), calls, pageSize);
            Kept(s, Committed(end, accepted), calls, accepted) <==>
            EqualTails(s.layers) && (LongestTail(s.layers) + accepted == 0 || StartsKept(s, end, calls))
  {
    hide Positions, Runs, After, LongestTail, KeptLayer, EqualTails, NewTokens, Holding, StartKept;
    BaselineOfEqual(s.layers);
    var end := After(Begun(s, ticket), calls, pageSize);
    var done := Committed(end, accepted);
    forall l | 0 <= l < |s.layers|
      ensures KeptLayer(s.layers[l], done.layers[l], NewTokens(calls, l), accepted) <==> (
        && s.layers[l].activeCount == LongestTail(s.layers)
        && (LongestTail(s.layers) + accepted == 0 || StartKept(end.layers[l], Given(s.layers[l], calls, l))))
    {
      RunHolding(Begun(s, ticket), calls, pageSize, l);
      KeptLayerIff(s.layers[l], end.layers[l], NewTokens(calls, l), LongestTail(s.layers), accepted);
    }
  }

  /** A roll back should leave every tail as it was. */
  ghost predicate Restored(s: Sequence, r: Sequence)
    requires |r.layers| == |s.layers|
  {
    forall l :: 0 <= l < |s.layers| ==> RestoredLayer(s.layers[l], r.layers[l])
  }

  ghost predicate RestoredLayer(before: Layer, after: Layer) {
    Tail(after) == Tail(before) && after.sealedPages == before.sealedPages
  }

  lemma RestoredLayerIff(before: Layer, end: Layer, tokens: seq<nat>, baseline: nat)
    requires Holding(end, Tail(before) + tokens) && end.sealedPages == before.sealedPages
    requires before.activeCount <= baseline && before.activeCount < UINT32
    ensures RestoredLayer(before, WithCount(end, baseline))
       <==> before.activeCount == baseline && (baseline == 0 || StartKept(end, Tail(before) + tokens))
  {
    hide StartKept, Contiguous;
    var all := Tail(before) + tokens;
    if before.activeCount == baseline {
      CutTokens(end, all, baseline);
      assert all[..baseline] == Tail(before);
    } else {
      assert |Tail(WithCount(end, baseline))| == baseline;
    }
  }

  /** Main result: a roll back restores every tail if and only if the tails were equally long at the start and, unless
      they were empty, none was begun anew. */
  lemma RollbackRestores(s: Sequence, ticket: nat, calls: seq<AppendCall>, pageSize: nat)
    requires forall l :: 0 <= l < |s.layers| ==> s.layers[l].activeCount < UINT32
    requires Runs(Begun(s, ticket), calls, pageSize)
    ensures var end := After(Begun(s, ticket), calls, pageSize);
            Restored(s, RolledBack(end)) <==>
            EqualTails(s.layers) && (LongestTail(s.layers) == 0 || StartsKept(s, end, calls))
    ensures RolledBack(After(Begun(s, ticket), calls, pageSize)).topologyGeneration == s.topologyGeneration
  {
    hide Positions, Runs, After, LongestTail, RestoredLayer, EqualTails, NewTokens, Holding, StartKept;
    BaselineOfEqual(s.layers);
    var end := After(Begun(s, ticket), calls, pageSize);
    var done := RolledBack(end);
    forall l | 0 <= l < |s.layers|
      ensures RestoredLayer(s.layers[l], done.layers[l]) <==> (
        && s.layers[l].activeCount == LongestTail(s.layers)
        && (LongestTail(s.layers) == 0 || StartKept(end.layers[l], Given(s.layers[l], calls, l))))
    {
      RunHolding(Begun(s, ticket), calls, pageSize, l);
      RestoredLayerIff(s.layers[l], end.layers[l], NewTokens(calls, l), LongestTail(s.layers));
    }
  }

  /** Without wrapping no tail is begun anew: equal tails are then all it takes. */
  lemma ShortRunKeepsStarts(s: Sequence, ticket: nat, calls: seq<AppendCall>, pageSize: nat)
    requires forall l :: 0 <= l < |s.layers| ==> s.layers[l].activeCount < UINT32
    requires forall l :: 0 <= l < |s.layers| ==> |Given(s.layers[l], calls, l)| < UINT32
    requires Runs(Begun(s, ticket), calls, pageSize)
    ensures StartsKept(s, After(Begun(s, ticket), calls, pageSize), calls)
  {
    hide Positions, Runs, After, Holding, StartKept, NewTokens, Given;
    var end := After(Begun(s, ticket), calls, pageSize);
    forall l | 0 <= l < |s.layers|
      ensures StartKept(end.layers[l], Given(s.layers[l], calls, l))
    {
      RunHolding(Begun(s, ticket), calls, pageSize, l);
      ShortKeepsStart(end.layers[l], Given(s.layers[l], calls, l));
    }
  }

  /** Unequal tails: rolling back invents two tokens in the second layer. */
  lemma RollbackInvents()
    ensures var s := Sequence(1, [Layer([], 0, 2, 0, 0), Layer([], 0, 0, 0, 0)], 1, 0, NO_SPECULATION);
            |Tail(s.layers[1])| == 0 && |Tail(RolledBack(Begun(s, 1)).layers[1])| == 2
  {
    var layers := [Layer([], 0, 2, 0, 0), Layer([], 0, 0, 0, 0)];
    assert LongestTail(layers) == 2;
  }
}
