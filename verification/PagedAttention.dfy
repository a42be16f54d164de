/** The attention reference over sealed pages and active tails: for every query head, an online softmax
    over the visible tokens of its KV head. */
module PagedAttention {
  import opened Common
  import opened Sequences
  import opened Arithmetic
  import opened Softmax
  import opened OnlineSoftmax
  import opened SealedPages

  // ---- inputs -------------------------------------------------------------------------------

  /** Dense keys and values still being appended to. */
  datatype ActiveKvTail = ActiveKvTail(tokenBegin: nat, tokenCount: nat, layer: nat, kvHead: nat, headDim: nat,
                                       k: seq<real>, v: seq<real>)
  {
    predicate Valid() {
      && tokenCount != 0 && headDim != 0 && tokenBegin + tokenCount <= UINT32_MAX
      && |k| == |v| == tokenCount * headDim
    }
  }

  datatype AttentionShape = AttentionShape(queryCount: nat, queryHeadCount: nat, kvHeadCount: nat, headDim: nat,
                                           queryTokenBegin: nat, causalWindow: nat, scoreScale: real)
  {
    predicate Valid() {
      && queryCount != 0 && queryHeadCount != 0 && kvHeadCount != 0 && headDim != 0
      && queryHeadCount % kvHeadCount == 0 && scoreScale > 0.0
    }
  }

  datatype AttentionError = InvalidShape | InvalidPageTopology | InvalidTailTopology | OverlappingPages
    | NoVisibleTokens

  datatype Diagnostics = Diagnostics(attendedValues: nat, sealedValues: nat, activeValues: nat, sealedPayloadBytes: nat)

  datatype AttentionResult = Output(values: seq<real>, diagnostics: Diagnostics) | Failed(error: AttentionError)

  /** Some values more, from sealed pages or from tails. */
  function Counted(local: Diagnostics, values: nat, sealed: bool): Diagnostics {
    if sealed
    then local.(attendedValues := local.attendedValues + values, sealedValues := local.sealedValues + values)
    else local.(attendedValues := local.attendedValues + values, activeValues := local.activeValues + values)
  }

  /** The values of so many tokens. */
  function Values(tokens: nat, dim: nat): nat {
    tokens * dim
  }

  lemma CountedTwice(local: Diagnostics, a: nat, b: nat, dim: nat, sealed: bool)
    ensures Counted(Counted(local, Values(a, dim), sealed), Values(b, dim), sealed)
         == Counted(local, Values(a + b, dim), sealed)
    ensures Counted(local, Values(0, dim), sealed) == local && Values(1, dim) == dim
  {
    assert (a + b) * dim == a * dim + b * dim;
  }

  // ---- what is attended to -------------------------------------------------------------------

  datatype KvToken = KvToken(position: nat, key: seq<real>, value: seq<real>)

  function PageToken(page: SealedKvPage, t: nat): KvToken
    requires page.Valid() && t < page.tokenCount
  {
    KvToken(page.tokenBegin + t,
            seq(page.headDim, d requires 0 <= d < page.headDim => KeyAt(page, t, d)),
            seq(page.headDim, d requires 0 <= d < page.headDim => ValueAt(page, t, d)))
  }

  function PageTokens(page: SealedKvPage): (r: seq<KvToken>)
    requires page.Valid()
    ensures |r| == page.tokenCount
  {
    seq(page.tokenCount, t requires 0 <= t < page.tokenCount => PageToken(page, t))
  }

  function TailToken(tail: ActiveKvTail, t: nat): KvToken
    requires tail.Valid() && t < tail.tokenCount
  {
    RowInside(t, tail.tokenCount, tail.headDim);
    KvToken(tail.tokenBegin + t, tail.k[t * tail.headDim..t * tail.headDim + tail.headDim],
            tail.v[t * tail.headDim..t * tail.headDim + tail.headDim])
  }

  function TailTokens(tail: ActiveKvTail): (r: seq<KvToken>)
    requires tail.Valid()
    ensures |r| == tail.tokenCount
  {
    seq(tail.tokenCount, t requires 0 <= t < tail.tokenCount => TailToken(tail, t))
  }

  ghost predicate PagesFit(pages: seq<SealedKvPage>, shape: AttentionShape) {
    forall i :: 0 <= i < |pages| ==> PageFits(pages[i], shape)
  }

  predicate PageFits(page: SealedKvPage, shape: AttentionShape) {
    page.Valid() && page.layer == 0 && page.headDim == shape.headDim && page.kvHead < shape.kvHeadCount
  }

  ghost predicate TailsFit(tails: seq<ActiveKvTail>, shape: AttentionShape) {
    forall i :: 0 <= i < |tails| ==> TailFits(tails[i], shape)
  }

  predicate TailFits(tail: ActiveKvTail, shape: AttentionShape) {
    tail.Valid() && tail.layer == 0 && tail.headDim == shape.headDim && tail.kvHead < shape.kvHeadCount
  }

  /** All tokens of the pages of one KV head. */
  function SealedTokens(pages: seq<SealedKvPage>, shape: AttentionShape, kvh: nat): seq<KvToken>
    requires PagesFit(pages, shape)
  {
    if pages == [] then []
    else
      var last := pages[|pages| - 1];
      SealedTokens(pages[..|pages| - 1], shape, kvh) + (if last.kvHead == kvh then PageTokens(last) else [])
  }

  function ActiveTokens(tails: seq<ActiveKvTail>, shape: AttentionShape, kvh: nat): seq<KvToken>
    requires TailsFit(tails, shape)
  {
    if tails == [] then []
    else
      var last := tails[|tails| - 1];
      ActiveTokens(tails[..|tails| - 1], shape, kvh) + (if last.kvHead == kvh then TailTokens(last) else [])
  }

  /** The position of query q, wrapping at 32 bits. */
  function QueryToken(shape: AttentionShape, q: nat): (t: nat)
    ensures t < UINT32
  {
    (shape.queryTokenBegin + q) % UINT32
  }

  /** The first position inside the causal window of a query at position t. */
  function Earliest(shape: AttentionShape, t: nat): (e: nat)
  {
    if shape.causalWindow == 0 || (t + 1) % UINT32 <= shape.causalWindow then 0
    else (t + 1) % UINT32 - shape.causalWindow
  }

  function MapHead(shape: AttentionShape, qh: nat): nat
    requires shape.queryHeadCount != 0
  {
    qh * shape.kvHeadCount / shape.queryHeadCount
  }

  function Dot(a: seq<real>, b: seq<real>): real
    requires |a| == |b|
  {
    if a == [] then 0.0 else Dot(a[..|a| - 1], b[..|b| - 1]) + a[|a| - 1] * b[|b| - 1]
  }

  /** What one query head asks: its vector, the score scale, and the positions it may see. */
  datatype Question = Question(query: seq<real>, scale: real, lo: nat, hi: nat)
  {
    predicate Sees(position: nat) { lo <= position <= hi }
  }

  ghost predicate OfDim(tokens: seq<KvToken>, dim: nat) {
    forall i :: 0 <= i < |tokens| ==> |tokens[i].key| == |tokens[i].value| == dim
  }

  function Scored(ask: Question, token: KvToken): Token
    requires |token.key| == |ask.query|
  {
    Token(Dot(ask.query, token.key) * ask.scale, token.value)
  }

  /** The visible tokens, scored, in order. */
  function Attended(ask: Question, tokens: seq<KvToken>): (h: seq<Token>)
    requires OfDim(tokens, |ask.query|)
    ensures Dimensioned(h, |ask.query|)
  {
    if tokens == [] then []
    else
      var last := tokens[|tokens| - 1];
      Attended(ask, tokens[..|tokens| - 1]) + Seen(ask, last)
  }

  /** A token as the question sees it: scored, or not at all. */
  function Seen(ask: Question, token: KvToken): (h: seq<Token>)
    requires |token.key| == |ask.query|
  {
    if ask.Sees(token.position) then [Scored(ask, token)] else []
  }

  lemma {:induction false} AttendedAppend(ask: Question, a: seq<KvToken>, b: seq<KvToken>)
    requires OfDim(a, |ask.query|) && OfDim(b, |ask.query|) && OfDim(a + b, |ask.query|)
    ensures Attended(ask, a + b) == Attended(ask, a) + Attended(ask, b)
  {
    if b == [] {
      assert a + b == a;
    } else {
      var b' := b[..|b| - 1];
      hide Seen;
      assert (a + b)[..|a + b| - 1] == a + b';
      AttendedAppend(ask, a, b');
    }
  }

  lemma {:induction false} SealedDim(pages: seq<SealedKvPage>, shape: AttentionShape, kvh: nat)
    requires PagesFit(pages, shape)
    ensures OfDim(SealedTokens(pages, shape, kvh), shape.headDim)
  {
    if pages != [] {
      SealedDim(pages[..|pages| - 1], shape, kvh);
    }
  }

  lemma {:induction false} ActiveDim(tails: seq<ActiveKvTail>, shape: AttentionShape, kvh: nat)
    requires TailsFit(tails, shape)
    ensures OfDim(ActiveTokens(tails, shape, kvh), shape.headDim)
  {
    if tails != [] {
      ActiveDim(tails[..|tails| - 1], shape, kvh);
      var last := tails[|tails| - 1];
      forall t | 0 <= t < last.tokenCount
        ensures |TailTokens(last)[t].key| == |TailTokens(last)[t].value| == shape.headDim
      {
        RowInside(t, last.tokenCount, last.headDim);
      }
    }
  }

  // ---- the dense reference --------------------------------------------------------------------

  /** Masked softmax over all tokens of a head: an invisible token has weight zero. */
  function MaskedWeight(exp: Exp, ask: Question, token: KvToken): real
    requires |token.key| == |ask.query|
  {
    if ask.Sees(token.position) then exp(Scored(ask, token).score) else 0.0
  }

  function MaskedMass(exp: Exp, ask: Question, tokens: seq<KvToken>): real
    requires OfDim(tokens, |ask.query|)
  {
    if tokens == [] then 0.0
    else MaskedMass(exp, ask, tokens[..|tokens| - 1]) + MaskedWeight(exp, ask, tokens[|tokens| - 1])
  }

  function MaskedPull(exp: Exp, ask: Question, tokens: seq<KvToken>, d: nat): real
    requires OfDim(tokens, |ask.query|) && d < |ask.query|
  {
    if tokens == [] then 0.0
    else
      var last := tokens[|tokens| - 1];
      MaskedPull(exp, ask, tokens[..|tokens| - 1], d) + MaskedWeight(exp, ask, last) * last.value[d]
  }

  /** Attending to the visible tokens is the dense masked softmax over all of them. */
  lemma {:induction false} AttendedIsMasked(exp: Exp, ask: Question, tokens: seq<KvToken>, d: nat)
    requires OfDim(tokens, |ask.query|) && d < |ask.query|
    ensures Mass(exp, Attended(ask, tokens), 0.0) == MaskedMass(exp, ask, tokens)
    ensures Pull(exp, Attended(ask, tokens), 0.0, d) == MaskedPull(exp, ask, tokens, d)
  {
    hide Exponential, Dot, Mass, Pull;
    if tokens == [] {
      NoTokens(exp, d);
    } else {
      var init, last := tokens[..|tokens| - 1], tokens[|tokens| - 1];
      AttendedIsMasked(exp, ask, init, d);
      if ask.Sees(last.position) {
        SumsNext(exp, Attended(ask, init), Scored(ask, last), 0.0, d);
      } else {
        assert Attended(ask, tokens) == Attended(ask, init);
      }
    }
  }

  lemma NoTokens(exp: Exp, d: nat)
    ensures Mass(exp, [], 0.0) == 0.0 && Pull(exp, [], 0.0, d) == 0.0
  {
  }

  // ---- visibility and head mapping -----------------------------------------------------------

  /** Position p is seen by query q as a causal window promises: not ahead of it, and less than a window back. */
  predicate InWindow(shape: AttentionShape, q: nat, p: nat) {
    var t := shape.queryTokenBegin + q;
    p <= t && (shape.causalWindow == 0 || t < p + shape.causalWindow)
  }

  /** Position p is between the two bounds the code computes for query q. */
  predicate InBounds(shape: AttentionShape, q: nat, p: nat) {
    Earliest(shape, QueryToken(shape, q)) <= p <= QueryToken(shape, q)
  }

  /** The bounds are the window for every 32-bit position. */
  ghost predicate WindowKept(shape: AttentionShape, q: nat) {
    forall p :: 0 <= p < UINT32 ==> (InBounds(shape, q, p) <==> InWindow(shape, q, p))
  }

  /** Main result: a query sees its causal window exactly when its position and the next fit 32 bits, or when its
      position is the last one and it has no window. */
  lemma WindowExact(shape: AttentionShape, q: nat)
    requires shape.queryTokenBegin < UINT32 && q < UINT32 - 1 && shape.causalWindow < UINT32
    ensures WindowKept(shape, q) <==> (
      var t := shape.queryTokenBegin + q;
      t + 1 < UINT32 || (t + 1 == UINT32 && shape.causalWindow == 0))
  {
    var t, last := shape.queryTokenBegin + q, UINT32 - 1;
    if t + 1 == UINT32 && shape.causalWindow != 0 {
      assert InBounds(shape, q, 0) && !InWindow(shape, q, 0);
    } else if t + 1 > UINT32 {
      assert QueryToken(shape, q) == t - UINT32;
      assert !InBounds(shape, q, last);
      if !InWindow(shape, q, last) {
        assert InBounds(shape, q, QueryToken(shape, q)) && !InWindow(shape, q, QueryToken(shape, q));
      }
    }
  }

  /** Consecutive equal groups of query heads share a KV head, and every KV head has its group. */
  lemma HeadGroups(shape: AttentionShape, qh: nat)
    requires shape.Valid() && qh < shape.queryHeadCount
    ensures shape.queryHeadCount / shape.kvHeadCount > 0
    ensures MapHead(shape, qh) == qh / (shape.queryHeadCount / shape.kvHeadCount) < shape.kvHeadCount
  {
    var group := shape.queryHeadCount / shape.kvHeadCount;
    var g, rest := qh / group, qh % group;
    assert shape.queryHeadCount == group * shape.kvHeadCount;
    assert qh == g * group + rest;
    assert qh * shape.kvHeadCount == g * shape.queryHeadCount + rest * shape.kvHeadCount by {
      GroupProduct(g, group, rest, shape.kvHeadCount);
    }
    assert rest * shape.kvHeadCount < shape.queryHeadCount by {
      RowInside(rest, group, shape.kvHeadCount);
    }
    DivModUnique(qh * shape.kvHeadCount, shape.queryHeadCount, g, rest * shape.kvHeadCount);
    DivModRow(qh, shape.kvHeadCount, group);
  }

  lemma GroupProduct(g: nat, group: nat, rest: nat, heads: nat)
    ensures (g * group + rest) * heads == g * (group * heads) + rest * heads
  {
  }

  // ---- one query head ---------------------------------------------------------------------------

  /** Scores one token, accumulates and counts it, if the question sees its position. */
  method Consume(exp: Exp, state: OnlineState, ask: Question, token: KvToken, local: Diagnostics, sealed: bool,
                 ghost h: seq<Token>)
    returns (next: Diagnostics)
    requires state.Valid() && Sums(exp, state.State(), h) && StartsEmpty(state)
    requires |token.key| == |token.value| == |ask.query| == state.weighted.Length
    modifies state, state.weighted
    ensures state.Valid() && state.weighted == old(state.weighted) && StartsEmpty(state)
    ensures next == if ask.Sees(token.position) then Counted(local, |ask.query|, sealed) else local
    ensures Sums(exp, state.State(), h + Seen(ask, token))
  {
    hide Sums;
    if token.position < ask.lo || token.position > ask.hi {
      assert h + Seen(ask, token) == h;
      return local;
    }
    var dot := 0.0;
    for d := 0 to |ask.query|
      invariant dot == Dot(ask.query[..d], token.key[..d])
      invariant state.Valid() && Sums(exp, state.State(), h) && StartsEmpty(state)
    {
      assert ask.query[..d + 1][..d] == ask.query[..d] && token.key[..d + 1][..d] == token.key[..d];
      dot := dot + ask.query[d] * token.key[d];
    }
    assert ask.query[..|ask.query|] == ask.query && token.key[..|ask.query|] == token.key;
    assert dot == Dot(ask.query, token.key);
    assert ask.Sees(token.position);
    assert Scored(ask, token) == Token(dot * ask.scale, token.value);
    assert Seen(ask, token) == [Token(dot * ask.scale, token.value)];
    state.AddToken(exp, dot * ask.scale, token.value, h);
    next := local.(attendedValues := local.attendedValues + |ask.query|);
    if sealed {
      next := next.(sealedValues := next.sealedValues + |ask.query|);
    } else {
      next := next.(activeValues := next.activeValues + |ask.query|);
    }
  }

  /** Before its first token the state is empty. */
  ghost predicate StartsEmpty(state: OnlineState)
    reads state, state.weighted
  {
    state.denominator == 0.0 ==> state.State() == Empty(state.weighted.Length)
  }

  lemma AttendedNext(ask: Question, before: seq<KvToken>, tokens: seq<KvToken>, t: nat)
    requires OfDim(before, |ask.query|) && OfDim(tokens, |ask.query|) && t < |tokens|
    ensures OfDim(before + tokens[..t], |ask.query|) && OfDim(before + tokens[..t + 1], |ask.query|)
    ensures Attended(ask, before + tokens[..t + 1]) == Attended(ask, before + tokens[..t]) + Seen(ask, tokens[t])
  {
    assert (before + tokens[..t + 1])[..|before| + t] == before + tokens[..t];
  }

  /** Accumulates one page's or one tail's tokens. */
  method ConsumeAll(exp: Exp, state: OnlineState, ask: Question, tokens: seq<KvToken>, local: Diagnostics, sealed: bool,
                    ghost before: seq<KvToken>)
    returns (next: Diagnostics)
    requires OfDim(before, |ask.query|) && OfDim(tokens, |ask.query|)
    requires state.Valid() && Sums(exp, state.State(), Attended(ask, before)) && StartsEmpty(state)
    requires |ask.query| == state.weighted.Length
    modifies state, state.weighted
    ensures state.Valid() && state.weighted == old(state.weighted) && StartsEmpty(state)
    ensures OfDim(before + tokens, |ask.query|)
    ensures Sums(exp, state.State(), Attended(ask, before + tokens))
    ensures next == Counted(local, Values(|Attended(ask, tokens)|, |ask.query|), sealed)
  {
    hide Sums, StartsEmpty, Scored, Attended, Counted;
    next := local;
    NothingAttended(ask);
    CountedTwice(local, 0, 0, |ask.query|, sealed);
    assert before + tokens[..0] == before;
    for t := 0 to |tokens|
      invariant state.Valid() && state.weighted == old(state.weighted) && StartsEmpty(state)
      invariant OfDim(before + tokens[..t], |ask.query|)
      invariant Sums(exp, state.State(), Attended(ask, before + tokens[..t]))
      invariant next == Counted(local, Values(|Attended(ask, tokens[..t])|, |ask.query|), sealed)
    {
      AttendedNext(ask, before, tokens, t);
      AttendedNext(ask, [], tokens, t);
      assert [] + tokens[..t] == tokens[..t] && [] + tokens[..t + 1] == tokens[..t + 1];
      CountedTwice(local, |Attended(ask, tokens[..t])|, 1, |ask.query|, sealed);
      next := Consume(exp, state, ask, tokens[t], next, sealed, Attended(ask, before + tokens[..t]));
    }
    assert tokens[..|tokens|] == tokens;
  }

  function Ask(shape: AttentionShape, queries: seq<real>, q: nat, qh: nat): (ask: Question)
    requires shape.Valid() && q < shape.queryCount && qh < shape.queryHeadCount
    requires |queries| == shape.queryCount * shape.queryHeadCount * shape.headDim
    ensures |ask.query| == shape.headDim
  {
    var row := q * shape.queryHeadCount + qh;
    RowInside(q, shape.queryCount, shape.queryHeadCount);
    RowInside(row, shape.queryCount * shape.queryHeadCount, shape.headDim);
    Question(queries[row * shape.headDim..row * shape.headDim + shape.headDim], shape.scoreScale,
             Earliest(shape, QueryToken(shape, q)), QueryToken(shape, q))
  }

  /** Everything a query head may attend to: the sealed tokens of its KV head, then the active ones. */
  function HeadTokens(pages: seq<SealedKvPage>, tails: seq<ActiveKvTail>, shape: AttentionShape,
                      qh: nat): (r: seq<KvToken>)
    requires PagesFit(pages, shape) && TailsFit(tails, shape) && shape.queryHeadCount != 0
    ensures OfDim(r, shape.headDim)
  {
    SealedDim(pages, shape, MapHead(shape, qh));
    ActiveDim(tails, shape, MapHead(shape, qh));
    SealedTokens(pages, shape, MapHead(shape, qh)) + ActiveTokens(tails, shape, MapHead(shape, qh))
  }

  /** The answer for one query head: none when nothing is visible, else the mean over what is. */
  ghost predicate Answers(exp: Exp, ask: Question, tokens: seq<KvToken>, found: bool, row: seq<real>)
    requires OfDim(tokens, |ask.query|)
  {
    && (found <==> Attended(ask, tokens) != [])
    && (found ==> |row| == |ask.query| && forall d :: 0 <= d < |row| ==> row[d] == Mean(exp, Attended(ask, tokens), d))
  }

  method AttendSealed(exp: Exp, state: OnlineState, ask: Question, pages: seq<SealedKvPage>, shape: AttentionShape,
                      kvh: nat, local: Diagnostics)
    returns (next: Diagnostics)
    requires PagesFit(pages, shape) && |ask.query| == shape.headDim == state.weighted.Length
    requires state.Valid() && Sums(exp, state.State(), []) && StartsEmpty(state)
    modifies state, state.weighted
    ensures state.Valid() && state.weighted == old(state.weighted) && StartsEmpty(state)
    ensures OfDim(SealedTokens(pages, shape, kvh), shape.headDim)
    ensures Sums(exp, state.State(), Attended(ask, SealedTokens(pages, shape, kvh)))
    ensures next == Counted(local, Values(|Attended(ask, SealedTokens(pages, shape, kvh))|, |ask.query|), true)
  {
    hide Sums, StartsEmpty, PageFits, Attended, SealedTokens, Counted;
    SealedNone(shape, kvh);
    next := local;
    NothingAttended(ask);
    CountedTwice(local, 0, 0, |ask.query|, true);
    assert pages[..0] == [];
    for i := 0 to |pages|
      invariant state.Valid() && state.weighted == old(state.weighted) && StartsEmpty(state)
      invariant OfDim(SealedTokens(pages[..i], shape, kvh), shape.headDim)
      invariant Sums(exp, state.State(), Attended(ask, SealedTokens(pages[..i], shape, kvh)))
      invariant next == Counted(local, Values(|Attended(ask, SealedTokens(pages[..i], shape, kvh))|, |ask.query|), true)
    {
      SealedNext(pages, shape, kvh, i);
      if pages[i].kvHead == kvh {
        var k, v := DequantizeFor(pages[i], shape);
        var tokens := DenseTokens(pages[i], k, v);
        CountedTwice(local, |Attended(ask, SealedTokens(pages[..i], shape, kvh))|, |Attended(ask, tokens)|,
                     |ask.query|, true);
        next := ConsumeAll(exp, state, ask, tokens, next, true, SealedTokens(pages[..i], shape, kvh));
        AttendedAppend(ask, SealedTokens(pages[..i], shape, kvh), tokens);
      }
    }
    assert pages[..|pages|] == pages;
  }

  lemma SealedNone(shape: AttentionShape, kvh: nat)
    ensures SealedTokens([], shape, kvh) == [] && ActiveTokens([], shape, kvh) == []
  {
  }

  lemma NothingAttended(ask: Question)
    ensures Attended(ask, []) == []
  {
  }

  method DequantizeFor(page: SealedKvPage, shape: AttentionShape) returns (k: seq<real>, v: seq<real>)
    requires PageFits(page, shape)
    ensures page.Valid() && page.headDim == shape.headDim && |k| == |v| == page.tokenCount * page.headDim
    ensures forall t, d :: 0 <= t < page.tokenCount && 0 <= d < page.headDim ==> ReadBack(page, k, v, t, d)
  {
    k, v := DequantizePage(page);
  }

  lemma SealedNext(pages: seq<SealedKvPage>, shape: AttentionShape, kvh: nat, i: nat)
    requires PagesFit(pages, shape) && i < |pages|
    ensures PageFits(pages[i], shape) && pages[i].Valid()
    ensures SealedTokens(pages[..i + 1], shape, kvh)
         == if pages[i].kvHead == kvh then SealedTokens(pages[..i], shape, kvh) + PageTokens(pages[i])
            else SealedTokens(pages[..i], shape, kvh)
  {
    assert pages[..i + 1][..i] == pages[..i];
  }

  lemma ActiveNext(tails: seq<ActiveKvTail>, shape: AttentionShape, kvh: nat, i: nat)
    requires TailsFit(tails, shape) && i < |tails|
    ensures TailFits(tails[i], shape) && tails[i].Valid()
    ensures ActiveTokens(tails[..i + 1], shape, kvh)
         == if tails[i].kvHead == kvh then ActiveTokens(tails[..i], shape, kvh) + TailTokens(tails[i])
            else ActiveTokens(tails[..i], shape, kvh)
  {
    assert tails[..i + 1][..i] == tails[..i];
  }

  lemma RowRead(page: SealedKvPage, k: seq<real>, v: seq<real>, t: nat)
    requires page.Valid() && |k| == |v| == page.tokenCount * page.headDim && t < page.tokenCount
    requires forall d :: 0 <= d < page.headDim ==> ReadBack(page, k, v, t, d)
    ensures var first := t * page.headDim;
            && first + page.headDim <= |k|
            && KvToken(page.tokenBegin + t, k[first..first + page.headDim], v[first..first + page.headDim])
              == PageToken(page, t)
  {
    hide KeyAt, ValueAt;
    RowInside(t, page.tokenCount, page.headDim);
    var first, dim := t * page.headDim, page.headDim;
    forall d | 0 <= d < dim
      ensures k[first..first + dim][d] == KeyAt(page, t, d) && v[first..first + dim][d] == ValueAt(page, t, d)
    {
      assert ReadBack(page, k, v, t, d);
    }
    assert k[first..first + dim] == PageToken(page, t).key;
    assert v[first..first + dim] == PageToken(page, t).value;
  }

  /** The rows of the dequantised tensors are the page's tokens. */
  method DenseTokens(page: SealedKvPage, k: seq<real>, v: seq<real>) returns (tokens: seq<KvToken>)
    requires page.Valid() && |k| == |v| == page.tokenCount * page.headDim
    requires forall t, d :: 0 <= t < page.tokenCount && 0 <= d < page.headDim ==> ReadBack(page, k, v, t, d)
    ensures tokens == PageTokens(page) && OfDim(tokens, page.headDim)
  {
    hide KeyAt, ValueAt;
    tokens := [];
    for t := 0 to page.tokenCount
      invariant tokens == PageTokens(page)[..t]
    {
      RowInside(t, page.tokenCount, page.headDim);
      var first := t * page.headDim;
      var token := KvToken(page.tokenBegin + t, k[first..first + page.headDim], v[first..first + page.headDim]);
      RowRead(page, k, v, t);
      tokens := tokens + [token];
    }
  }

  method AttendActive(exp: Exp, state: OnlineState, ask: Question, tails: seq<ActiveKvTail>, shape: AttentionShape,
                      kvh: nat, local: Diagnostics, ghost before: seq<KvToken>)
    returns (next: Diagnostics)
    requires TailsFit(tails, shape) && |ask.query| == shape.headDim == state.weighted.Length
    requires OfDim(before, shape.headDim)
    requires state.Valid() && Sums(exp, state.State(), Attended(ask, before)) && StartsEmpty(state)
    modifies state, state.weighted
    ensures state.Valid() && state.weighted == old(state.weighted)
    ensures OfDim(before + ActiveTokens(tails, shape, kvh), shape.headDim)
    ensures OfDim(ActiveTokens(tails, shape, kvh), shape.headDim)
    ensures Sums(exp, state.State(), Attended(ask, before + ActiveTokens(tails, shape, kvh)))
    ensures next == Counted(local, Values(|Attended(ask, ActiveTokens(tails, shape, kvh))|, |ask.query|), false)
  {
    hide Sums, StartsEmpty, TailFits, Attended, ActiveTokens, Counted;
    SealedNone(shape, kvh);
    next := local;
    NothingAttended(ask);
    CountedTwice(local, 0, 0, |ask.query|, false);
    assert tails[..0] == [] && before + [] == before;
    for i := 0 to |tails|
      invariant state.Valid() && state.weighted == old(state.weighted) && StartsEmpty(state)
      invariant OfDim(before + ActiveTokens(tails[..i], shape, kvh), shape.headDim)
      invariant OfDim(ActiveTokens(tails[..i], shape, kvh), shape.headDim)
      invariant Sums(exp, state.State(), Attended(ask, before + ActiveTokens(tails[..i], shape, kvh)))
      invariant next
           == Counted(local, Values(|Attended(ask, ActiveTokens(tails[..i], shape, kvh))|, |ask.query|), false)
    {
      ActiveNext(tails, shape, kvh, i);
      if tails[i].kvHead == kvh {
        TailDim(tails[i], shape);
        var tokens := TailTokens(tails[i]);
        ghost var first := ActiveTokens(tails[..i], shape, kvh);
        CountedTwice(local, |Attended(ask, first)|, |Attended(ask, tokens)|, |ask.query|, false);
        next := ConsumeAll(exp, state, ask, tokens, next, false, before + first);
        assert before + first + tokens == before + (first + tokens);
        AttendedAppend(ask, first, tokens);
      }
    }
    assert tails[..|tails|] == tails;
  }

  lemma TailDim(tail: ActiveKvTail, shape: AttentionShape)
    requires TailFits(tail, shape)
    ensures tail.Valid() && OfDim(TailTokens(tail), shape.headDim)
  {
    ActiveDim([tail], shape, tail.kvHead);
    assert [tail][..0] == [];
    assert ActiveTokens([tail], shape, tail.kvHead) == TailTokens(tail);
  }

  /** One query head's row of the output. */
  method AttendRow(exp: Exp, pages: seq<SealedKvPage>, tails: seq<ActiveKvTail>, queries: seq<real>,
                   shape: AttentionShape, q: nat, qh: nat, local: Diagnostics)
    returns (found: bool, row: seq<real>, next: Diagnostics)
    requires shape.Valid() && PagesFit(pages, shape) && TailsFit(tails, shape)
    requires |queries| == shape.queryCount * shape.queryHeadCount * shape.headDim
    requires q < shape.queryCount && qh < shape.queryHeadCount
    ensures Answers(exp, Ask(shape, queries, q, qh), HeadTokens(pages, tails, shape, qh), found, row)
    ensures var io := Inputs(pages, tails, queries, shape);
            next == Counted(Counted(local, Values(io.Taken(InPage, q, qh), shape.headDim), true),
                            Values(io.Taken(InTail, q, qh), shape.headDim), false)
  {
    hide Sums, Attended, PagesFit, TailsFit, SealedTokens, ActiveTokens, MapHead, Earliest, QueryToken, Mean,
         StartsEmpty, Ask, Counted;
    var ask := Ask(shape, queries, q, qh);
    var kvh := MapHead(shape, qh);
    var state := new OnlineState(shape.headDim);
    NewIsEmpty(state);
    EmptySums(exp, shape.headDim);
    NothingAttended(ask);
    next := AttendSealed(exp, state, ask, pages, shape, kvh, local);
    next := AttendActive(exp, state, ask, tails, shape, kvh, next, SealedTokens(pages, shape, kvh));
    ghost var h := Attended(ask, HeadTokens(pages, tails, shape, qh));
    found, row := FinishRow(exp, state, h);
  }

  /** Divides the weighted sums by the denominator, unless nothing was accumulated. */
  method FinishRow(exp: Exp, state: OnlineState, ghost h: seq<Token>) returns (found: bool, row: seq<real>)
    requires state.Valid() && Sums(exp, state.State(), h)
    ensures found <==> h != []
    ensures found ==> |row| == state.weighted.Length
    ensures found ==> forall d :: 0 <= d < |row| ==> Dimensioned(h, |row|) && row[d] == Mean(exp, h, d)
  {
    hide Sums, Mean;
    Started(exp, state.State(), h);
    row := [];
    if state.denominator == 0.0 {
      return false, [];
    }
    for d := 0 to state.weighted.Length
      invariant |row| == d && forall i :: 0 <= i < d ==> row[i] == Mean(exp, h, i)
    {
      FinalMean(exp, state.State(), h, d);
      row := row + [state.weighted[d] / state.denominator];
    }
    found := true;
  }

  lemma NewIsEmpty(state: OnlineState)
    requires state.State() == Empty(state.weighted.Length)
    ensures StartsEmpty(state)
  {
  }

  lemma Started(exp: Exp, a: Acc, h: seq<Token>)
    requires Sums(exp, a, h)
    ensures a.started <==> h != []
    ensures Dimensioned(h, |a.weighted|)
  {
  }

  // ---- the whole call -----------------------------------------------------------------------------

  /** Two pages of one head share a token position. */
  predicate Overlap(a: SealedKvPage, b: SealedKvPage) {
    a.kvHead == b.kvHead && a.tokenBegin < b.tokenBegin + b.tokenCount && b.tokenBegin < a.tokenBegin + a.tokenCount
  }

  /** Two pages overlap exactly when they are of one head and share a position. */
  lemma OverlapExactly(a: SealedKvPage, b: SealedKvPage)
    requires a.tokenCount > 0 && b.tokenCount > 0
    ensures Overlap(a, b) <==> a.kvHead == b.kvHead && exists t: nat :: HasPosition(a, t) && HasPosition(b, t)
  {
    if Overlap(a, b) {
      var t := if a.tokenBegin < b.tokenBegin then b.tokenBegin else a.tokenBegin;
      assert HasPosition(a, t) && HasPosition(b, t);
    }
  }

  predicate HasPosition(page: SealedKvPage, t: nat) {
    page.tokenBegin <= t < page.tokenBegin + page.tokenCount
  }

  ghost predicate Overlapping(pages: seq<SealedKvPage>) {
    exists i, j :: 0 <= i < j < |pages| && Overlap(pages[i], pages[j])
  }

  method FindOverlap(pages: seq<SealedKvPage>) returns (found: bool)
    ensures found <==> Overlapping(pages)
  {
    hide Overlap;
    for i := 0 to |pages|
      invariant forall a, b :: 0 <= a < i && a < b < |pages| ==> !Overlap(pages[a], pages[b])
    {
      for j := i + 1 to |pages|
        invariant forall b :: i < b < j ==> !Overlap(pages[i], pages[b])
      {
        if Overlap(pages[i], pages[j]) {
          return true;
        }
      }
    }
    found := false;
  }

  method CheckPages(pages: seq<SealedKvPage>, shape: AttentionShape) returns (ok: bool)
    ensures ok <==> PagesFit(pages, shape)
  {
    hide PageFits;
    for i := 0 to |pages|
      invariant forall j :: 0 <= j < i ==> PageFits(pages[j], shape)
    {
      if !PageFits(pages[i], shape) {
        return false;
      }
    }
    ok := true;
  }

  method CheckTails(tails: seq<ActiveKvTail>, shape: AttentionShape) returns (ok: bool)
    ensures ok <==> TailsFit(tails, shape)
  {
    hide TailFits;
    for i := 0 to |tails|
      invariant forall j :: 0 <= j < i ==> TailFits(tails[j], shape)
    {
      if !TailFits(tails[i], shape) {
        return false;
      }
    }
    ok := true;
  }

  function PayloadBytes(pages: seq<SealedKvPage>): nat {
    if pages == [] then 0 else PayloadBytes(pages[..|pages| - 1]) + pages[|pages| - 1].ResidentBytes()
  }

  /** The values from `first` on are the means of a non-empty list, component by component. */
  ghost predicate MeansAt(exp: Exp, values: seq<real>, first: nat, dim: nat, h: seq<Token>) {
    && h != [] && Dimensioned(h, dim) && first + dim <= |values|
    && forall d :: 0 <= d < dim ==> values[first + d] == Mean(exp, h, d)
  }

  /** Which tokens a count is about. */
  datatype Kind = Any | InPage | InTail

  /** Everything the call reads, once the inputs have been accepted. */
  datatype Inputs = Inputs(pages: seq<SealedKvPage>, tails: seq<ActiveKvTail>, queries: seq<real>,
                           shape: AttentionShape)
  {
    ghost predicate Accepted() {
      && shape.Valid() && PagesFit(pages, shape) && TailsFit(tails, shape)
      && |queries| == shape.queryCount * shape.queryHeadCount * shape.headDim
    }

    /** The scored tokens that query head qh of query q attends to. */
    function Row(q: nat, qh: nat): (h: seq<Token>)
      requires Accepted() && q < shape.queryCount && qh < shape.queryHeadCount
      ensures Dimensioned(h, shape.headDim)
    {
      Attended(Ask(shape, queries, q, qh), HeadTokens(pages, tails, shape, qh))
    }

    /** How many of the tokens of one kind query head qh of query q attends to. */
    function Taken(kind: Kind, q: nat, qh: nat): nat
      requires Accepted() && q < shape.queryCount && qh < shape.queryHeadCount
    {
      var ask, kvh := Ask(shape, queries, q, qh), MapHead(shape, qh);
      SealedDim(pages, shape, kvh);
      ActiveDim(tails, shape, kvh);
      match kind
      case Any => |Row(q, qh)|
      case InPage => |Attended(ask, SealedTokens(pages, shape, kvh))|
      case InTail => |Attended(ask, ActiveTokens(tails, shape, kvh))|
    }

    /** Where component d of the answer for query head qh of query q stands in the output. */
    function At(q: nat, qh: nat, d: nat): nat {
      (q * shape.queryHeadCount + qh) * shape.headDim + d
    }

    /** The output holds that query head's mean. */
    ghost predicate Answered(exp: Exp, values: seq<real>, q: nat, qh: nat)
      requires Accepted() && q < shape.queryCount && qh < shape.queryHeadCount
    {
      MeansAt(exp, values, At(q, qh, 0), shape.headDim, Row(q, qh))
    }

    /** Tokens of one kind attended to by the first r query heads, counted row by row. */
    ghost function TotalTo(kind: Kind, r: nat): nat
      requires Accepted() && r <= shape.queryCount * shape.queryHeadCount
      decreases r
    {
      if r == 0 then 0
      else
        DivModRow(r - 1, shape.queryCount, shape.queryHeadCount);
        TotalTo(kind, r - 1) + Taken(kind, (r - 1) / shape.queryHeadCount, (r - 1) % shape.queryHeadCount)
    }

    /** The counters after the first r query heads. */
    ghost predicate Tallied(local: Diagnostics, r: nat)
      requires Accepted() && r <= shape.queryCount * shape.queryHeadCount
    {
      && local.attendedValues == Values(TotalTo(Any, r), shape.headDim)
      && local.sealedValues == Values(TotalTo(InPage, r), shape.headDim)
      && local.activeValues == Values(TotalTo(InTail, r), shape.headDim)
      && local.sealedPayloadBytes == PayloadBytes(pages)
    }

    ghost predicate Blind()
      requires Accepted()
    {
      exists q, qh :: 0 <= q < shape.queryCount && 0 <= qh < shape.queryHeadCount && Row(q, qh) == []
    }

    /** What the call promises: the first failing check, or every query head's softmax mean. */
    ghost predicate Correct(exp: Exp, r: AttentionResult)
      requires |queries| == shape.queryCount * shape.queryHeadCount * shape.headDim
    {
      if !shape.Valid() then r == Failed(InvalidShape)
      else if !PagesFit(pages, shape) then r == Failed(InvalidPageTopology)
      else if !TailsFit(tails, shape) then r == Failed(InvalidTailTopology)
      else if Overlapping(pages) then r == Failed(OverlappingPages)
      else if Blind() then r == Failed(NoVisibleTokens)
      else
        && r.Output?
        && |r.values| == shape.queryCount * shape.queryHeadCount * shape.headDim
        && (forall q, qh :: 0 <= q < shape.queryCount && 0 <= qh < shape.queryHeadCount ==>
            Answered(exp, r.values, q, qh))
        && Tallied(r.diagnostics, shape.queryCount * shape.queryHeadCount)
    }
  }

  lemma AnsweredKept(io: Inputs, exp: Exp, values: seq<real>, more: seq<real>, q: nat, qh: nat)
    requires io.Accepted() && q < io.shape.queryCount && qh < io.shape.queryHeadCount
    requires io.Answered(exp, values, q, qh)
    ensures io.Answered(exp, values + more, q, qh)
  {
    hide Mean, Ask, HeadTokens, Attended;
  }

  lemma AnsweredNew(io: Inputs, exp: Exp, values: seq<real>, row: seq<real>, q: nat, qh: nat)
    requires io.Accepted() && q < io.shape.queryCount && qh < io.shape.queryHeadCount
    requires |values| == (q * io.shape.queryHeadCount + qh) * io.shape.headDim && |row| == io.shape.headDim
    requires MeansAt(exp, row, 0, |row|, io.Row(q, qh))
    ensures io.Answered(exp, values + row, q, qh)
  {
    hide Mean, Ask, HeadTokens, Attended;
  }

  lemma TotalNext(io: Inputs, kind: Kind, q: nat, qh: nat)
    requires io.Accepted() && q < io.shape.queryCount && qh < io.shape.queryHeadCount
    ensures var r := q * io.shape.queryHeadCount + qh;
            && r + 1 <= io.shape.queryCount * io.shape.queryHeadCount
            && io.TotalTo(kind, r + 1) == io.TotalTo(kind, r) + io.Taken(kind, q, qh)
  {
    hide Ask, HeadTokens, Attended, PagesFit, TailsFit, Inputs.Taken;
    RowInside(q, io.shape.queryCount, io.shape.queryHeadCount);
    DivModUnique(q * io.shape.queryHeadCount + qh, io.shape.queryHeadCount, q, qh);
  }

  /** A query head attends to its sealed tokens and its active ones. */
  lemma TakenSplits(io: Inputs, q: nat, qh: nat)
    requires io.Accepted() && q < io.shape.queryCount && qh < io.shape.queryHeadCount
    ensures io.Taken(Any, q, qh) == io.Taken(InPage, q, qh) + io.Taken(InTail, q, qh)
  {
    hide Ask, Attended, PagesFit, TailsFit, SealedTokens, ActiveTokens, MapHead;
    var kvh := MapHead(io.shape, qh);
    SealedDim(io.pages, io.shape, kvh);
    ActiveDim(io.tails, io.shape, kvh);
    AttendedAppend(Ask(io.shape, io.queries, q, qh), SealedTokens(io.pages, io.shape, kvh),
                   ActiveTokens(io.tails, io.shape, kvh));
  }

  lemma ThreeScaled(a: nat, b: nat, c: nat, dim: nat)
    ensures Values(a + b + c, dim) == Values(a, dim) + Values(b, dim) + Values(c, dim) && Values(0, dim) == 0
  {
  }

  lemma TalliedBy(io: Inputs, local: Diagnostics, r: nat, s: nat, a: nat)
    requires io.Accepted() && r + 1 <= io.shape.queryCount * io.shape.queryHeadCount && io.Tallied(local, r)
    requires io.TotalTo(Any, r + 1) == io.TotalTo(Any, r) + s + a
    requires io.TotalTo(InPage, r + 1) == io.TotalTo(InPage, r) + s
    requires io.TotalTo(InTail, r + 1) == io.TotalTo(InTail, r) + a
    ensures io.Tallied(Counted(Counted(local, Values(s, io.shape.headDim), true), Values(a, io.shape.headDim), false),
                       r + 1)
  {
    hide PagesFit, TailsFit, PayloadBytes, Inputs.TotalTo, Values;
    ThreeScaled(io.TotalTo(Any, r), s, a, io.shape.headDim);
    ThreeScaled(io.TotalTo(InPage, r), s, 0, io.shape.headDim);
    ThreeScaled(io.TotalTo(InTail, r), 0, a, io.shape.headDim);
  }

  /** One more query head's tokens in all three counters. */
  lemma TalliedNext(io: Inputs, local: Diagnostics, q: nat, qh: nat)
    requires io.Accepted() && q < io.shape.queryCount && qh < io.shape.queryHeadCount
    requires q * io.shape.queryHeadCount + qh <= io.shape.queryCount * io.shape.queryHeadCount
    requires io.Tallied(local, q * io.shape.queryHeadCount + qh)
    ensures q * io.shape.queryHeadCount + qh + 1 <= io.shape.queryCount * io.shape.queryHeadCount
    ensures io.Tallied(Counted(Counted(local, Values(io.Taken(InPage, q, qh), io.shape.headDim), true),
                               Values(io.Taken(InTail, q, qh), io.shape.headDim), false),
                       q * io.shape.queryHeadCount + qh + 1)
  {
    hide PagesFit, TailsFit, Counted, Inputs.Taken, Inputs.TotalTo, Inputs.Tallied;
    TotalNext(io, Any, q, qh);
    TotalNext(io, InPage, q, qh);
    TotalNext(io, InTail, q, qh);
    TakenSplits(io, q, qh);
    TalliedBy(io, local, q * io.shape.queryHeadCount + qh, io.Taken(InPage, q, qh), io.Taken(InTail, q, qh));
  }

  /** Main result: the three counters are kept apart, and attended values are the sealed and the active ones. */
  lemma {:induction false} AttendedSplits(io: Inputs, r: nat)
    requires io.Accepted() && r <= io.shape.queryCount * io.shape.queryHeadCount
    ensures io.TotalTo(Any, r) == io.TotalTo(InPage, r) + io.TotalTo(InTail, r)
  {
    hide PagesFit, TailsFit, Inputs.Taken;
    if r > 0 {
      AttendedSplits(io, r - 1);
      DivModRow(r - 1, io.shape.queryCount, io.shape.queryHeadCount);
      TakenSplits(io, (r - 1) / io.shape.queryHeadCount, (r - 1) % io.shape.queryHeadCount);
    }
  }

  /** Every row of one query is answered, or a blind head is found. */
  method AttendQuery(exp: Exp, io: Inputs, values: seq<real>, q: nat, local: Diagnostics)
    returns (found: bool, out: seq<real>, next: Diagnostics)
    requires io.Accepted() && q < io.shape.queryCount
    requires |values| == q * io.shape.queryHeadCount * io.shape.headDim
    requires q * io.shape.queryHeadCount <= io.shape.queryCount * io.shape.queryHeadCount
    requires io.Tallied(local, q * io.shape.queryHeadCount)
    ensures found ==> values <= out && |out| == (q + 1) * io.shape.queryHeadCount * io.shape.headDim
    ensures found ==> forall qh :: 0 <= qh < io.shape.queryHeadCount ==> io.Answered(exp, out, q, qh)
    ensures found ==> (q + 1) * io.shape.queryHeadCount <= io.shape.queryCount * io.shape.queryHeadCount
    ensures found ==> io.Tallied(next, (q + 1) * io.shape.queryHeadCount)
    ensures !found ==> io.Blind()
  {
    hide PagesFit, TailsFit, Mean, Ask, HeadTokens, Attended, MeansAt, Answers, Counted, Inputs.Tallied, Inputs.Row,
         Inputs.Taken;
    var shape := io.shape;
    ghost var first := q * shape.queryHeadCount;
    RowInside(q, shape.queryCount, shape.queryHeadCount);
    out, next := values, local;
    for qh := 0 to shape.queryHeadCount
      invariant values <= out && |out| == (first + qh) * shape.headDim
      invariant first + qh <= shape.queryCount * shape.queryHeadCount && io.Tallied(next, first + qh)
      invariant forall i :: 0 <= i < qh ==> io.Answered(exp, out, q, i)
    {
      TalliedNext(io, next, q, qh);
      var ok, row, counted := AttendRow(exp, io.pages, io.tails, io.queries, shape, q, qh, next);
      if !ok {
        RowBlind(io, exp, q, qh, row);
        return false, [], local;
      }
      RowAnswer(io, exp, q, qh, row);
      AnsweredNew(io, exp, out, row, q, qh);
      forall i | 0 <= i < qh
        ensures io.Answered(exp, out + row, q, i)
      {
        AnsweredKept(io, exp, out, row, q, i);
      }
      NextRow(first + qh, shape.headDim);
      out, next := out + row, counted;
    }
    NextRow(q, shape.queryHeadCount);
    found := true;
  }

  lemma NextRow(r: nat, width: nat)
    ensures (r + 1) * width == r * width + width
  {
  }

  lemma RowBlind(io: Inputs, exp: Exp, q: nat, qh: nat, row: seq<real>)
    requires io.Accepted() && q < io.shape.queryCount && qh < io.shape.queryHeadCount
    requires Answers(exp, Ask(io.shape, io.queries, q, qh), HeadTokens(io.pages, io.tails, io.shape, qh), false, row)
    ensures io.Blind()
  {
    hide Mean, Ask, HeadTokens, Attended;
    assert io.Row(q, qh) == [];
  }

  lemma RowAnswer(io: Inputs, exp: Exp, q: nat, qh: nat, row: seq<real>)
    requires io.Accepted() && q < io.shape.queryCount && qh < io.shape.queryHeadCount
    requires Answers(exp, Ask(io.shape, io.queries, q, qh), HeadTokens(io.pages, io.tails, io.shape, qh), true, row)
    ensures |row| == io.shape.headDim && MeansAt(exp, row, 0, |row|, io.Row(q, qh))
  {
    hide Mean, Ask, HeadTokens, Attended;
  }

  /** The reference attention. */
  method PagedAttention(exp: Exp, pages: seq<SealedKvPage>, tails: seq<ActiveKvTail>, queries: seq<real>,
                        shape: AttentionShape)
    returns (r: AttentionResult)
    requires |queries| == shape.queryCount * shape.queryHeadCount * shape.headDim
    ensures Inputs(pages, tails, queries, shape).Correct(exp, r)
  {
    hide PagesFit, TailsFit, Overlapping, PayloadBytes, Inputs.Blind, Inputs.Answered, Inputs.Tallied;
    var io := Inputs(pages, tails, queries, shape);
    if !shape.Valid() {
      return Failed(InvalidShape);
    }
    var pagesOk := CheckPages(pages, shape);
    if !pagesOk {
      return Failed(InvalidPageTopology);
    }
    var tailsOk := CheckTails(tails, shape);
    if !tailsOk {
      return Failed(InvalidTailTopology);
    }
    var overlap := FindOverlap(pages);
    if overlap {
      return Failed(OverlappingPages);
    }
    var payload := SumPayload(pages);
    NothingTallied(io, payload);
    var found, values, counted := AttendAll(exp, io, Diagnostics(0, 0, 0, payload));
    if !found {
      return Failed(NoVisibleTokens);
    }
    NotBlind(io, exp, values);
    r := Output(values, counted);
  }

  lemma NothingTallied(io: Inputs, payload: nat)
    requires io.Accepted() && payload == PayloadBytes(io.pages)
    ensures io.Tallied(Diagnostics(0, 0, 0, payload), 0)
  {
    hide PagesFit, TailsFit, PayloadBytes;
  }

  lemma NotBlind(io: Inputs, exp: Exp, values: seq<real>)
    requires io.Accepted()
    requires forall q, qh :: 0 <= q < io.shape.queryCount && 0 <= qh < io.shape.queryHeadCount ==>
      io.Answered(exp, values, q, qh)
    ensures !io.Blind()
  {
    hide Mean, Attended;
    forall q, qh | 0 <= q < io.shape.queryCount && 0 <= qh < io.shape.queryHeadCount
      ensures io.Row(q, qh) != []
    {
      assert io.Answered(exp, values, q, qh);
    }
  }

  method SumPayload(pages: seq<SealedKvPage>) returns (bytes: nat)
    ensures bytes == PayloadBytes(pages)
  {
    bytes := 0;
    for i := 0 to |pages|
      invariant bytes == PayloadBytes(pages[..i])
    {
      assert pages[..i + 1][..i] == pages[..i];
      bytes := bytes + pages[i].ResidentBytes();
    }
    assert pages[..|pages|] == pages;
  }

  method AttendAll(exp: Exp, io: Inputs, local: Diagnostics) returns (found: bool, values: seq<real>, next: Diagnostics)
    requires io.Accepted() && io.Tallied(local, 0)
    ensures !found ==> io.Blind()
    ensures found ==> |values| == io.shape.queryCount * io.shape.queryHeadCount * io.shape.headDim
    ensures found ==> forall q, qh :: 0 <= q < io.shape.queryCount && 0 <= qh < io.shape.queryHeadCount ==>
                        io.Answered(exp, values, q, qh)
    ensures found ==> io.Tallied(next, io.shape.queryCount * io.shape.queryHeadCount)
  {
    hide PagesFit, TailsFit, Mean, Ask, HeadTokens, Attended, Inputs.Tallied;
    values, next := [], local;
    for q := 0 to io.shape.queryCount
      invariant |values| == q * io.shape.queryHeadCount * io.shape.headDim
      invariant forall i, qh :: 0 <= i < q && 0 <= qh < io.shape.queryHeadCount ==> io.Answered(exp, values, i, qh)
      invariant q * io.shape.queryHeadCount <= io.shape.queryCount * io.shape.queryHeadCount
      invariant io.Tallied(next, q * io.shape.queryHeadCount)
    {
      var ok, out, counted := AttendQuery(exp, io, values, q, next);
      if !ok {
        return false, [], local;
      }
      forall i, qh | 0 <= i < q && 0 <= qh < io.shape.queryHeadCount
        ensures io.Answered(exp, out, i, qh)
      {
        AnsweredKept(io, exp, values, out[|values|..], i, qh);
        assert values + out[|values|..] == out;
      }
      values, next := out, counted;
    }
    found := true;
  }

  // ---- page order and the dense reference -----------------------------------------------------------

  lemma {:induction false} SealedAppend(a: seq<SealedKvPage>, b: seq<SealedKvPage>, shape: AttentionShape, kvh: nat)
    requires PagesFit(a, shape) && PagesFit(b, shape) && PagesFit(a + b, shape)
    ensures SealedTokens(a + b, shape, kvh) == SealedTokens(a, shape, kvh) + SealedTokens(b, shape, kvh)
  {
    hide PageFits;
    if b == [] {
      assert a + b == a;
    } else {
      assert (a + b)[..|a + b| - 1] == a + b[..|b| - 1];
      SealedAppend(a, b[..|b| - 1], shape, kvh);
    }
  }

  /** The tokens of a head do not depend on the order of the pages. */
  lemma {:induction false} SealedPermuted(a: seq<SealedKvPage>, b: seq<SealedKvPage>, shape: AttentionShape, kvh: nat)
    requires PagesFit(a, shape) && PagesFit(b, shape) && multiset(a) == multiset(b)
    ensures multiset(SealedTokens(a, shape, kvh)) == multiset(SealedTokens(b, shape, kvh))
  {
    hide SealedTokens, PageFits;
    if a == [] {
      SameLength(a, b);
    } else {
      var n := |a| - 1;
      var k := Counterpart(a, b);
      var rest := b[..k] + b[k + 1..];
      SealedPermuted(a[..n], rest, shape, kvh);
      SealedSplit(a, n, shape, kvh);
      SealedSplit(b, k, shape, kvh);
      assert a[..n] + a[n + 1..] == a[..n];
    }
  }

  /** Taking one page out takes exactly its tokens out. */
  lemma SealedSplit(b: seq<SealedKvPage>, k: nat, shape: AttentionShape, kvh: nat)
    requires PagesFit(b, shape) && k < |b|
    ensures PagesFit(b[..k] + b[k + 1..], shape) && PagesFit([b[k]], shape)
    ensures multiset(SealedTokens(b, shape, kvh))
         == multiset(SealedTokens(b[..k] + b[k + 1..], shape, kvh)) + multiset(SealedTokens([b[k]], shape, kvh))
  {
    hide SealedTokens, PageFits;
    var front, back := b[..k], b[k + 1..];
    assert b == front + ([b[k]] + back);
    SealedAppend(front, [b[k]] + back, shape, kvh);
    SealedAppend([b[k]], back, shape, kvh);
    SealedAppend(front, back, shape, kvh);
  }

  lemma {:induction false} AttendedPermuted(ask: Question, a: seq<KvToken>, b: seq<KvToken>)
    requires OfDim(a, |ask.query|) && OfDim(b, |ask.query|) && multiset(a) == multiset(b)
    ensures multiset(Attended(ask, a)) == multiset(Attended(ask, b))
  {
    hide Attended;
    if a == [] {
      SameLength(a, b);
    } else {
      var n := |a| - 1;
      var k := Counterpart(a, b);
      AttendedPermuted(ask, a[..n], b[..k] + b[k + 1..]);
      AttendedSplit(ask, a, n);
      AttendedSplit(ask, b, k);
      assert a[..n] + a[n + 1..] == a[..n];
    }
  }

  lemma AttendedSplit(ask: Question, b: seq<KvToken>, k: nat)
    requires OfDim(b, |ask.query|) && k < |b|
    ensures OfDim(b[..k] + b[k + 1..], |ask.query|) && OfDim([b[k]], |ask.query|)
    ensures multiset(Attended(ask, b))
         == multiset(Attended(ask, b[..k] + b[k + 1..])) + multiset(Attended(ask, [b[k]]))
  {
    hide Attended;
    var front, back := b[..k], b[k + 1..];
    assert b == front + ([b[k]] + back);
    AttendedAppend(ask, front, [b[k]] + back);
    AttendedAppend(ask, [b[k]], back);
    AttendedAppend(ask, front, back);
  }

  lemma FitPermuted(a: seq<SealedKvPage>, b: seq<SealedKvPage>, shape: AttentionShape)
    requires multiset(a) == multiset(b) && PagesFit(a, shape)
    ensures PagesFit(b, shape)
  {
    hide PageFits;
    forall i | 0 <= i < |b|
      ensures PageFits(b[i], shape)
    {
      assert b[i] in multiset(b);
      assert b[i] in a;
    }
  }

  /** Two entries of one list are two entries of any reordering of it. */
  lemma PairPermuted<T>(a: seq<T>, b: seq<T>, i: nat, j: nat) returns (k: nat, l: nat)
    requires multiset(a) == multiset(b) && i < j < |a|
    ensures k < |b| && l < |b| && k != l && b[k] == a[i] && b[l] == a[j]
  {
    assert a[i] in multiset(b);
    k :| 0 <= k < |b| && b[k] == a[i];
    RemoveAt(a, i);
    RemoveAt(b, k);
    var rest := b[..k] + b[k + 1..];
    assert (a[..i] + a[i + 1..])[j - 1] == a[j];
    assert a[j] in multiset(a[..i] + a[i + 1..]);
    assert a[j] in rest;
    var m :| 0 <= m < |rest| && rest[m] == a[j];
    l := if m < k then m else m + 1;
  }

  lemma OverlapPermuted(a: seq<SealedKvPage>, b: seq<SealedKvPage>)
    requires multiset(a) == multiset(b) && Overlapping(a)
    ensures Overlapping(b)
  {
    var i, j :| 0 <= i < j < |a| && Overlap(a[i], a[j]);
    var k, l := PairPermuted(a, b, i, j);
    assert if k < l then Overlap(b[k], b[l]) else Overlap(b[l], b[k]);
  }

  lemma {:induction false} PayloadPermuted(a: seq<SealedKvPage>, b: seq<SealedKvPage>)
    requires multiset(a) == multiset(b)
    ensures PayloadBytes(a) == PayloadBytes(b)
  {
    if a == [] {
      SameLength(a, b);
    } else {
      var k := Counterpart(a, b);
      PayloadPermuted(a[..|a| - 1], b[..k] + b[k + 1..]);
      PayloadWithout(b, k);
    }
  }

  lemma {:induction false} PayloadWithout(b: seq<SealedKvPage>, k: nat)
    requires k < |b|
    ensures PayloadBytes(b) == PayloadBytes(b[..k] + b[k + 1..]) + b[k].ResidentBytes()
  {
    var n := |b| - 1;
    if k == n {
      assert b[..k] + b[k + 1..] == b[..n];
    } else {
      PayloadWithout(b[..n], k);
      assert (b[..k] + b[k + 1..])[..n - 1] == b[..n][..k] + b[..n][k + 1..];
    }
  }

  function Reordered(io: Inputs, pages: seq<SealedKvPage>): Inputs {
    io.(pages := pages)
  }

  /** A query head attends to the same tokens, and to as many of each kind. */
  lemma RowPermuted(io: Inputs, pages: seq<SealedKvPage>, q: nat, qh: nat)
    requires io.Accepted() && Reordered(io, pages).Accepted() && multiset(pages) == multiset(io.pages)
    requires q < io.shape.queryCount && qh < io.shape.queryHeadCount
    ensures multiset(io.Row(q, qh)) == multiset(Reordered(io, pages).Row(q, qh))
    ensures forall kind :: io.Taken(kind, q, qh) == Reordered(io, pages).Taken(kind, q, qh)
  {
    hide PagesFit, TailsFit, Ask, Attended, SealedTokens, ActiveTokens, MapHead;
    var ask, kvh := Ask(io.shape, io.queries, q, qh), MapHead(io.shape, qh);
    SealedDim(io.pages, io.shape, kvh);
    SealedDim(pages, io.shape, kvh);
    SealedPermuted(pages, io.pages, io.shape, kvh);
    AttendedPermuted(ask, SealedTokens(pages, io.shape, kvh), SealedTokens(io.pages, io.shape, kvh));
    AttendedPermuted(ask, HeadTokens(pages, io.tails, io.shape, qh), HeadTokens(io.pages, io.tails, io.shape, qh));
    SameLength(io.Row(q, qh), Reordered(io, pages).Row(q, qh));
    SameLength(Attended(ask, SealedTokens(pages, io.shape, kvh)), Attended(ask, SealedTokens(io.pages, io.shape, kvh)));
  }

  lemma {:induction false} TotalPermuted(io: Inputs, pages: seq<SealedKvPage>, kind: Kind, r: nat)
    requires io.Accepted() && Reordered(io, pages).Accepted() && multiset(pages) == multiset(io.pages)
    requires r <= io.shape.queryCount * io.shape.queryHeadCount
    ensures io.TotalTo(kind, r) == Reordered(io, pages).TotalTo(kind, r)
    decreases r
  {
    hide PagesFit, TailsFit, Inputs.Taken, Inputs.Row;
    if r > 0 {
      TotalPermuted(io, pages, kind, r - 1);
      DivModRow(r - 1, io.shape.queryCount, io.shape.queryHeadCount);
      RowPermuted(io, pages, (r - 1) / io.shape.queryHeadCount, (r - 1) % io.shape.queryHeadCount);
    }
  }

  lemma BlindPermuted(io: Inputs, pages: seq<SealedKvPage>)
    requires io.Accepted() && Reordered(io, pages).Accepted() && multiset(pages) == multiset(io.pages)
    ensures io.Blind() <==> Reordered(io, pages).Blind()
  {
    hide PagesFit, TailsFit, Inputs.Row, Inputs.Taken;
    var other := Reordered(io, pages);
    forall q, qh | 0 <= q < io.shape.queryCount && 0 <= qh < io.shape.queryHeadCount
      ensures io.Row(q, qh) == [] <==> other.Row(q, qh) == []
    {
      RowPermuted(io, pages, q, qh);
      SameLength(io.Row(q, qh), other.Row(q, qh));
    }
  }

  lemma AnsweredAt(exp: Exp, io: Inputs, values: seq<real>, q: nat, qh: nat, d: nat)
    requires io.Accepted() && q < io.shape.queryCount && qh < io.shape.queryHeadCount && d < io.shape.headDim
    requires io.Answered(exp, values, q, qh)
    ensures var at := io.At(q, qh, d);
            io.Row(q, qh) != [] && at < |values| && values[at] == Mean(exp, io.Row(q, qh), d)
  {
    hide PagesFit, TailsFit, Inputs.Row, Mean;
  }

  lemma MeanPermuted(exp: Exp, a: seq<Token>, b: seq<Token>, dim: nat, d: nat)
    requires multiset(a) == multiset(b) && a != [] && b != [] && Dimensioned(a, dim) && Dimensioned(b, dim) && d < dim
    ensures Mean(exp, a, d) == Mean(exp, b, d)
  {
    hide Mass, Pull;
    OrderIrrelevant(exp, a, b, 0.0, d);
  }

  /** One component of the output, from the row it belongs to. */
  lemma ValuePermuted(exp: Exp, io: Inputs, pages: seq<SealedKvPage>, values: seq<real>, values': seq<real>,
                      q: nat, qh: nat, d: nat)
    requires io.Accepted() && Reordered(io, pages).Accepted() && multiset(pages) == multiset(io.pages)
    requires q < io.shape.queryCount && qh < io.shape.queryHeadCount && d < io.shape.headDim
    requires io.Answered(exp, values, q, qh) && Reordered(io, pages).Answered(exp, values', q, qh)
    ensures var at := io.At(q, qh, d);
            at < |values| && at < |values'| && values[at] == values'[at]
  {
    hide PagesFit, TailsFit, Inputs.Row, Inputs.Taken, Inputs.Answered, Mean, Dimensioned;
    RowPermuted(io, pages, q, qh);
    AnsweredAt(exp, io, values, q, qh, d);
    AnsweredAt(exp, Reordered(io, pages), values', q, qh, d);
    MeanPermuted(exp, io.Row(q, qh), Reordered(io, pages).Row(q, qh), io.shape.headDim, d);
  }

  lemma ValuesPermuted(exp: Exp, io: Inputs, pages: seq<SealedKvPage>, values: seq<real>, values': seq<real>)
    requires io.Accepted() && Reordered(io, pages).Accepted() && multiset(pages) == multiset(io.pages)
    requires |values| == |values'| == io.shape.queryCount * io.shape.queryHeadCount * io.shape.headDim
    requires forall q, qh :: 0 <= q < io.shape.queryCount && 0 <= qh < io.shape.queryHeadCount ==>
      io.Answered(exp, values, q, qh) && Reordered(io, pages).Answered(exp, values', q, qh)
    ensures values == values'
  {
    hide PagesFit, TailsFit, Inputs.Row, Inputs.Taken, Inputs.Answered;
    var heads, dim := io.shape.queryHeadCount, io.shape.headDim;
    forall at | 0 <= at < |values|
      ensures values[at] == values'[at]
    {
      DivModRow(at, io.shape.queryCount * heads, dim);
      DivModRow(at / dim, io.shape.queryCount, heads);
      ValuePermuted(exp, io, pages, values, values', at / dim / heads, at / dim % heads, at % dim);
    }
  }

  /** Main result: reordering the pages changes nothing about the outcome: not the refusal, not the answers, not the
      counters. */
  lemma PageOrderIrrelevant(exp: Exp, io: Inputs, pages: seq<SealedKvPage>, r: AttentionResult, r': AttentionResult)
    requires |io.queries| == io.shape.queryCount * io.shape.queryHeadCount * io.shape.headDim
    requires multiset(pages) == multiset(io.pages)
    requires io.Correct(exp, r) && Reordered(io, pages).Correct(exp, r')
    ensures r == r'
  {
    hide PagesFit, TailsFit, Overlapping, PayloadBytes, Inputs.Blind, Inputs.Answered, Inputs.TotalTo, Inputs.Row;
    if io.shape.Valid() {
      if PagesFit(io.pages, io.shape) {
        FitPermuted(io.pages, pages, io.shape);
        if TailsFit(io.tails, io.shape) {
          if Overlapping(io.pages) {
            OverlapPermuted(io.pages, pages);
          } else {
            OutcomePermuted(exp, io, pages, r, r');
          }
        }
      } else if PagesFit(pages, io.shape) {
        FitPermuted(pages, io.pages, io.shape);
      }
    }
  }

  lemma OutcomePermuted(exp: Exp, io: Inputs, pages: seq<SealedKvPage>, r: AttentionResult, r': AttentionResult)
    requires io.Accepted() && Reordered(io, pages).Accepted() && multiset(pages) == multiset(io.pages)
    requires !Overlapping(io.pages) && io.Correct(exp, r) && Reordered(io, pages).Correct(exp, r')
    ensures r == r'
  {
    hide PagesFit, TailsFit, Overlapping, PayloadBytes, Inputs.Blind, Inputs.Answered, Inputs.TotalTo, Inputs.Row;
    if Overlapping(pages) {
      OverlapPermuted(pages, io.pages);
    }
    BlindPermuted(io, pages);
    if !io.Blind() {
      var rows := io.shape.queryCount * io.shape.queryHeadCount;
      ValuesPermuted(exp, io, pages, r.values, r'.values);
      PayloadPermuted(io.pages, pages);
      TotalPermuted(io, pages, Any, rows);
      TotalPermuted(io, pages, InPage, rows);
      TotalPermuted(io, pages, InTail, rows);
    }
  }

  /** The answer is dense attention: the masked softmax over every token of the mapped KV head. */
  lemma PagedIsDense(exp: Exp, io: Inputs, q: nat, qh: nat, d: nat)
    requires io.Accepted() && q < io.shape.queryCount && qh < io.shape.queryHeadCount && d < io.shape.headDim
    requires io.Row(q, qh) != []
    ensures var ask, all := Ask(io.shape, io.queries, q, qh), HeadTokens(io.pages, io.tails, io.shape, qh);
            && MaskedMass(exp, ask, all) > 0.0
            && Mean(exp, io.Row(q, qh), d) == MaskedPull(exp, ask, all, d) / MaskedMass(exp, ask, all)
  {
    hide PagesFit, TailsFit, Ask, Attended, Mass, Pull, HeadTokens;
    AttendedIsMasked(exp, Ask(io.shape, io.queries, q, qh), HeadTokens(io.pages, io.tails, io.shape, qh), d);
    MassPositive(exp, io.Row(q, qh), 0.0);
  }
}
