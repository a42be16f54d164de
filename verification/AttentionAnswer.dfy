/** What the attention reference answers, as one formula over its inputs: every page and tail of the query head's
    group, token by token and component by component. */
module AttentionAnswer {
  import opened Common
  import opened Arithmetic
  import opened Softmax
  import opened SealedPages
  import opened PagedAttention

  /** Which sum over tokens is meant: how many there are, their weights, or their weighted values. */
  datatype Part = Presence | Weight | Component(d: nat)

  /** An accepted call and one query head of it. */
  datatype Head = Head(io: Inputs, q: nat, qh: nat)
  {
    ghost predicate Valid() {
      io.Accepted() && q < io.shape.queryCount && qh < io.shape.queryHeadCount
    }

    /** Consecutive equal groups of query heads share a KV head. */
    function Group(): nat
      requires Valid()
    {
      HeadGroups(io.shape, qh);
      qh / (io.shape.queryHeadCount / io.shape.kvHeadCount)
    }

    /** Component d of the query vector. */
    function Query(d: nat): real
      requires Valid() && d < io.shape.headDim
    {
      RowInside(q, io.shape.queryCount, io.shape.queryHeadCount);
      RowInside(q * io.shape.queryHeadCount + qh, io.shape.queryCount * io.shape.queryHeadCount, io.shape.headDim);
      io.queries[(q * io.shape.queryHeadCount + qh) * io.shape.headDim + d]
    }

    /** The first n terms of the product of query and key. */
    function Product(key: seq<real>, n: nat): real
      requires Valid() && n <= io.shape.headDim == |key|
    {
      if n == 0 then 0.0 else Product(key, n - 1) + Query(n - 1) * key[n - 1]
    }

    /** The scaled product of the query with a key. */
    function Score(key: seq<real>): real
      requires Valid() && |key| == io.shape.headDim
    {
      io.shape.scoreScale * Product(key, io.shape.headDim)
    }

    /** What one token adds to a sum: nothing outside the causal window. */
    function Share(exp: Exp, position: nat, key: seq<real>, value: seq<real>, part: Part): real
      requires Valid() && |key| == |value| == io.shape.headDim && (part.Component? ==> part.d < io.shape.headDim)
    {
      if !InWindow(io.shape, q, position) then 0.0
      else
        match part
        case Presence => 1.0
        case Weight => exp(Score(key))
        case Component(d) => exp(Score(key)) * value[d]
    }

    ghost predicate Asks(part: Part) {
      Valid() && (part.Component? ==> part.d < io.shape.headDim)
    }

    /** The first n tokens of a page. */
    function PageSum(exp: Exp, page: SealedKvPage, n: nat, part: Part): real
      requires Asks(part) && PageFits(page, io.shape) && n <= page.tokenCount
    {
      if n == 0 then 0.0
      else
        PageSum(exp, page, n - 1, part)
        + Share(exp, page.tokenBegin + (n - 1),
                seq(page.headDim, d requires 0 <= d < page.headDim => KeyAt(page, n - 1, d)),
                seq(page.headDim, d requires 0 <= d < page.headDim => ValueAt(page, n - 1, d)), part)
    }

    /** Row t of a tensor of the tail. */
    function RowOf(x: seq<real>, tail: ActiveKvTail, t: nat): (r: seq<real>)
      requires |x| == tail.tokenCount * tail.headDim && t < tail.tokenCount
      ensures |r| == tail.headDim
    {
      RowInside(t, tail.tokenCount, tail.headDim);
      seq(tail.headDim, d requires 0 <= d < tail.headDim => x[t * tail.headDim + d])
    }

    /** The first n tokens of a tail. */
    function TailSum(exp: Exp, tail: ActiveKvTail, n: nat, part: Part): real
      requires Asks(part) && TailFits(tail, io.shape) && n <= tail.tokenCount
    {
      if n == 0 then 0.0
      else
        TailSum(exp, tail, n - 1, part)
        + Share(exp, tail.tokenBegin + (n - 1), RowOf(tail.k, tail, n - 1), RowOf(tail.v, tail, n - 1), part)
    }

    /** The first n pages, those of the group's KV head. */
    function PagesSum(exp: Exp, n: nat, part: Part): real
      requires Asks(part) && n <= |io.pages|
    {
      if n == 0 then 0.0
      else
        var page := io.pages[n - 1];
        PagesSum(exp, n - 1, part)
        + (if page.kvHead == Group() then PageSum(exp, page, page.tokenCount, part) else 0.0)
    }

    function TailsSum(exp: Exp, n: nat, part: Part): real
      requires Asks(part) && n <= |io.tails|
    {
      if n == 0 then 0.0
      else
        var tail := io.tails[n - 1];
        TailsSum(exp, n - 1, part)
        + (if tail.kvHead == Group() then TailSum(exp, tail, tail.tokenCount, part) else 0.0)
    }

    /** Over everything the call was given. */
    function Sum(exp: Exp, part: Part): real
      requires Asks(part)
    {
      PagesSum(exp, |io.pages|, part) + TailsSum(exp, |io.tails|, part)
    }

    // ---- the same sums over lists of tokens ------------------------------------------------------------

    function ListSum(exp: Exp, tokens: seq<KvToken>, part: Part): real
      requires Asks(part) && OfDim(tokens, io.shape.headDim)
    {
      if tokens == [] then 0.0
      else
        var last := tokens[|tokens| - 1];
        ListSum(exp, tokens[..|tokens| - 1], part) + Share(exp, last.position, last.key, last.value, part)
    }

    lemma {:induction false} ListAppend(exp: Exp, a: seq<KvToken>, b: seq<KvToken>, part: Part)
      requires Asks(part) && OfDim(a, io.shape.headDim) && OfDim(b, io.shape.headDim)
      ensures OfDim(a + b, io.shape.headDim)
      ensures ListSum(exp, a + b, part) == ListSum(exp, a, part) + ListSum(exp, b, part)
    {
      hide Head.Valid, Head.Share;
      if b == [] {
        assert a + b == a;
      } else {
        assert (a + b)[..|a + b| - 1] == a + b[..|b| - 1];
        ListAppend(exp, a, b[..|b| - 1], part);
      }
    }

    lemma {:induction false} PageIsList(exp: Exp, page: SealedKvPage, n: nat, part: Part)
      requires Asks(part) && PageFits(page, io.shape) && n <= page.tokenCount
      ensures OfDim(PageTokens(page)[..n], io.shape.headDim)
      ensures PageSum(exp, page, n, part) == ListSum(exp, PageTokens(page)[..n], part)
    {
      hide Head.Valid, Head.Share, KeyAt, ValueAt;
      if n > 0 {
        PageIsList(exp, page, n - 1, part);
        assert PageTokens(page)[..n][..n - 1] == PageTokens(page)[..n - 1];
      }
    }

    lemma TailTokenIs(tail: ActiveKvTail, t: nat)
      requires TailFits(tail, io.shape) && t < tail.tokenCount
      ensures TailToken(tail, t) == KvToken(tail.tokenBegin + t, RowOf(tail.k, tail, t), RowOf(tail.v, tail, t))
    {
      RowInside(t, tail.tokenCount, tail.headDim);
    }

    lemma {:induction false} TailIsList(exp: Exp, tail: ActiveKvTail, n: nat, part: Part)
      requires Asks(part) && TailFits(tail, io.shape) && n <= tail.tokenCount
      ensures OfDim(TailTokens(tail)[..n], io.shape.headDim)
      ensures TailSum(exp, tail, n, part) == ListSum(exp, TailTokens(tail)[..n], part)
    {
      hide Head.Valid, Head.Share, TailToken, Head.RowOf;
      if n > 0 {
        TailIsList(exp, tail, n - 1, part);
        TailTokenIs(tail, n - 1);
        assert TailTokens(tail)[..n][..n - 1] == TailTokens(tail)[..n - 1];
      }
    }

    lemma {:induction false} PagesAreList(exp: Exp, n: nat, part: Part)
      requires Asks(part) && n <= |io.pages|
      ensures OfDim(SealedTokens(io.pages[..n], io.shape, Group()), io.shape.headDim)
      ensures PagesSum(exp, n, part) == ListSum(exp, SealedTokens(io.pages[..n], io.shape, Group()), part)
    {
      hide Head.Share, PageFits, TailsFit, Head.Group, Head.PageSum;
      if n > 0 {
        var page := io.pages[n - 1];
        PagesAreList(exp, n - 1, part);
        SealedNext(io.pages, io.shape, Group(), n - 1);
        PageIsList(exp, page, page.tokenCount, part);
        assert PageTokens(page)[..page.tokenCount] == PageTokens(page);
        ListAppend(exp, SealedTokens(io.pages[..n - 1], io.shape, Group()), PageTokens(page), part);
      }
    }

    lemma {:induction false} TailsAreList(exp: Exp, n: nat, part: Part)
      requires Asks(part) && n <= |io.tails|
      ensures OfDim(ActiveTokens(io.tails[..n], io.shape, Group()), io.shape.headDim)
      ensures TailsSum(exp, n, part) == ListSum(exp, ActiveTokens(io.tails[..n], io.shape, Group()), part)
    {
      hide Head.Share, TailFits, PagesFit, Head.Group, Head.TailSum;
      if n > 0 {
        var tail := io.tails[n - 1];
        TailsAreList(exp, n - 1, part);
        ActiveNext(io.tails, io.shape, Group(), n - 1);
        TailIsList(exp, tail, tail.tokenCount, part);
        assert TailTokens(tail)[..tail.tokenCount] == TailTokens(tail);
        ListAppend(exp, ActiveTokens(io.tails[..n - 1], io.shape, Group()), TailTokens(tail), part);
      }
    }

    lemma GroupIs()
      requires Valid()
      ensures MapHead(io.shape, qh) == Group()
    {
      HeadGroups(io.shape, qh);
    }

    /** The sums over the pages and over the tails are those over the lists of tokens the code goes through. */
    lemma SumIsList(exp: Exp, part: Part)
      requires Asks(part)
      ensures PagesSum(exp, |io.pages|, part) == ListSum(exp, SealedPart(), part)
      ensures TailsSum(exp, |io.tails|, part) == ListSum(exp, ActivePart(), part)
      ensures Sum(exp, part) == ListSum(exp, HeadTokens(io.pages, io.tails, io.shape, qh), part)
    {
      hide Head.Share, PagesFit, TailsFit, Head.Group, MapHead, Head.PagesSum, Head.TailsSum, Head.ListSum;
      GroupIs();
      PagesAreList(exp, |io.pages|, part);
      TailsAreList(exp, |io.tails|, part);
      assert io.pages[..|io.pages|] == io.pages && io.tails[..|io.tails|] == io.tails;
      ListAppend(exp, SealedPart(), ActivePart(), part);
    }

    function SealedPart(): (r: seq<KvToken>)
      requires Valid()
      ensures OfDim(r, io.shape.headDim)
    {
      SealedDim(io.pages, io.shape, MapHead(io.shape, qh));
      SealedTokens(io.pages, io.shape, MapHead(io.shape, qh))
    }

    function ActivePart(): (r: seq<KvToken>)
      requires Valid()
      ensures OfDim(r, io.shape.headDim)
    {
      ActiveDim(io.tails, io.shape, MapHead(io.shape, qh));
      ActiveTokens(io.tails, io.shape, MapHead(io.shape, qh))
    }

    // ---- the question asked -----------------------------------------------------------------------------

    function Question(): (ask: PagedAttention.Question)
      requires Valid()
      ensures |ask.query| == io.shape.headDim
    {
      Ask(io.shape, io.queries, q, qh)
    }

    lemma QueryIs(d: nat)
      requires Valid() && d < io.shape.headDim
      ensures Question().query[d] == Query(d) && Question().scale == io.shape.scoreScale
    {
      hide PagesFit, TailsFit;
      RowInside(q, io.shape.queryCount, io.shape.queryHeadCount);
      RowInside(q * io.shape.queryHeadCount + qh, io.shape.queryCount * io.shape.queryHeadCount, io.shape.headDim);
    }

    lemma {:induction false} ProductIs(key: seq<real>, n: nat)
      requires Valid() && n <= io.shape.headDim == |key|
      ensures Product(key, n) == Dot(Question().query[..n], key[..n])
    {
      hide Head.Valid, Head.Query, Head.Question;
      if n > 0 {
        ProductIs(key, n - 1);
        QueryIs(n - 1);
        assert Question().query[..n][..n - 1] == Question().query[..n - 1] && key[..n][..n - 1] == key[..n - 1];
      }
    }

    lemma ScoreIs(key: seq<real>)
      requires Valid() && |key| == io.shape.headDim
      ensures Dot(Question().query, key) * Question().scale == Score(key)
    {
      hide Head.Query, Head.Question, Head.Product, Dot, PagesFit, TailsFit;
      var n := io.shape.headDim;
      ProductIs(key, n);
      QueryIs(0);
      assert Question().query[..n] == Question().query && key[..n] == key;
    }

    /** The query sees what its causal window holds. */
    lemma SeesWindow(p: nat)
      requires Valid() && WindowKept(io.shape, q) && p < UINT32
      ensures Question().Sees(p) <==> InWindow(io.shape, q, p)
    {
      hide PagesFit, TailsFit, QueryToken, Earliest, InWindow;
      assert InBounds(io.shape, q, p) <==> InWindow(io.shape, q, p);
    }

    ghost predicate Positioned(tokens: seq<KvToken>) {
      forall i :: 0 <= i < |tokens| ==> tokens[i].position < UINT32
    }

    lemma MaskedIs(exp: Exp, ask: PagedAttention.Question, token: KvToken, score: real)
      requires |token.key| == |ask.query| && score == Scored(ask, token).score
      ensures MaskedWeight(exp, ask, token) == if ask.Sees(token.position) then exp(score) else 0.0
      ensures |Seen(ask, token)| == if ask.Sees(token.position) then 1 else 0
    {
    }

    /** A token adds to the three sums what the masked softmax makes of it. */
    lemma ShareIs(exp: Exp, token: KvToken, d: nat)
      requires Valid() && WindowKept(io.shape, q) && d < io.shape.headDim && token.position < UINT32
      requires |token.key| == |token.value| == io.shape.headDim
      ensures Share(exp, token.position, token.key, token.value, Weight) == MaskedWeight(exp, Question(), token)
      ensures Share(exp, token.position, token.key, token.value, Component(d))
           == MaskedWeight(exp, Question(), token) * token.value[d]
      ensures Share(exp, token.position, token.key, token.value, Presence) == |Seen(Question(), token)| as real
    {
      hide Head.Valid, Head.Question, WindowKept, InWindow, MaskedWeight, Seen, Exponential;
      SeesWindow(token.position);
      ScoreIs(token.key);
      MaskedIs(exp, Question(), token, Score(token.key));
    }

    /** The three sums over a list are its attended tokens and the two masked sums. */
    lemma {:induction false} ListIsMasked(exp: Exp, tokens: seq<KvToken>, d: nat)
      requires Valid() && WindowKept(io.shape, q) && OfDim(tokens, io.shape.headDim) && Positioned(tokens)
      requires d < io.shape.headDim
      ensures ListSum(exp, tokens, Presence) == |Attended(Question(), tokens)| as real
      ensures ListSum(exp, tokens, Weight) == MaskedMass(exp, Question(), tokens)
      ensures ListSum(exp, tokens, Component(d)) == MaskedPull(exp, Question(), tokens, d)
    {
      hide Head.Valid, Head.Question, WindowKept, Head.Share, Seen, MaskedWeight;
      if tokens != [] {
        ListIsMasked(exp, tokens[..|tokens| - 1], d);
        ShareIs(exp, tokens[|tokens| - 1], d);
      }
    }

    lemma {:induction false} SealedPositioned(pages: seq<SealedKvPage>, kvh: nat)
      requires PagesFit(pages, io.shape)
      ensures Positioned(SealedTokens(pages, io.shape, kvh))
    {
      hide KeyAt, ValueAt;
      if pages != [] {
        SealedPositioned(pages[..|pages| - 1], kvh);
      }
    }

    lemma {:induction false} ActivePositioned(tails: seq<ActiveKvTail>, kvh: nat)
      requires TailsFit(tails, io.shape)
      ensures Positioned(ActiveTokens(tails, io.shape, kvh))
    {
      if tails != [] {
        ActivePositioned(tails[..|tails| - 1], kvh);
      }
    }

    /** Counted from the inputs: how many tokens a query head attends to, in pages and in tails; it is blind when
        that is none. */
    lemma CountsFromInputs(exp: Exp)
      requires Valid() && WindowKept(io.shape, q)
      ensures io.Taken(InPage, q, qh) as real == PagesSum(exp, |io.pages|, Presence)
      ensures io.Taken(InTail, q, qh) as real == TailsSum(exp, |io.tails|, Presence)
      ensures io.Taken(Any, q, qh) as real == Sum(exp, Presence)
      ensures io.Row(q, qh) == [] <==> Sum(exp, Presence) == 0.0
    {
      hide WindowKept, MapHead, Head.PagesSum, Head.TailsSum, Head.ListSum, Ask, PagesFit, TailsFit, Attended;
      SealedPositioned(io.pages, MapHead(io.shape, qh));
      ActivePositioned(io.tails, MapHead(io.shape, qh));
      SumIsList(exp, Presence);
      ListIsMasked(exp, SealedPart(), 0);
      ListIsMasked(exp, ActivePart(), 0);
      ListAppend(exp, SealedPart(), ActivePart(), Presence);
      AttendedAppend(Question(), SealedPart(), ActivePart());
    }

    /** Main result: every component of the answer is the softmax mean over the inputs, token by token, of what lies in
        the causal window. */
    lemma AnswerFromInputs(exp: Exp, r: AttentionResult, d: nat)
      requires Valid() && d < io.shape.headDim && io.Correct(exp, r) && r.Output?
      requires io.shape.queryTokenBegin < UINT32 && q < UINT32 - 1 && io.shape.causalWindow < UINT32
      requires var t := io.shape.queryTokenBegin + q;
               t + 1 < UINT32 || (t + 1 == UINT32 && io.shape.causalWindow == 0)
      ensures var at := io.At(q, qh, d);
              && Sum(exp, Weight) > 0.0 && at < |r.values|
              && r.values[at] == Sum(exp, Component(d)) / Sum(exp, Weight)
    {
      hide Inputs.At, WindowKept, Inputs.Accepted, Inputs.Tallied, Inputs.Correct, Head.Sum, Inputs.Answered;
      WindowExact(io.shape, q);
      Answers(exp, r);
      AnswerIs(exp, r.values, d);
    }

    lemma Answers(exp: Exp, r: AttentionResult)
      requires Valid() && io.Correct(exp, r) && r.Output?
      ensures io.Answered(exp, r.values, q, qh)
    {
      hide PagesFit, TailsFit, Inputs.Answered, Inputs.Tallied;
    }

    lemma AnswerIs(exp: Exp, values: seq<real>, d: nat)
      requires Valid() && WindowKept(io.shape, q) && d < io.shape.headDim && io.Answered(exp, values, q, qh)
      ensures var at := io.At(q, qh, d);
              && Sum(exp, Weight) > 0.0 && at < |values|
              && values[at] == Sum(exp, Component(d)) / Sum(exp, Weight)
    {
      hide WindowKept, PagesFit, TailsFit, Inputs.Row, Mean, Head.Sum, Head.ListSum, Inputs.Answered, MaskedMass,
           MaskedPull, HeadTokens;
      AnsweredAt(exp, io, values, q, qh, d);
      PagedIsDense(exp, io, q, qh, d);
      SumIsList(exp, Weight);
      SumIsList(exp, Component(d));
      HeadPositioned();
      ListIsMasked(exp, HeadTokens(io.pages, io.tails, io.shape, qh), d);
    }

    lemma HeadPositioned()
      requires Valid()
      ensures Positioned(HeadTokens(io.pages, io.tails, io.shape, qh))
    {
      hide PagesFit, TailsFit, MapHead;
      SealedPositioned(io.pages, MapHead(io.shape, qh));
      ActivePositioned(io.tails, MapHead(io.shape, qh));
    }
  }

  // ---- what is refused ------------------------------------------------------------------------------------

  /** A page as the call takes it: of layer 0, of one of its heads, of its dimension, and complete. */
  predicate PageTaken(page: SealedKvPage, shape: AttentionShape) {
    && page.layer == 0 && page.kvHead < shape.kvHeadCount && page.headDim == shape.headDim
    && page.tokenCount > 0 && page.tokenBegin + page.tokenCount < UINT32
    && |page.packedK| == |page.packedV| == (page.tokenCount * page.headDim + 1) / 2
    && |page.kScales| == page.headDim && |page.vScales| == page.tokenCount
  }

  predicate TailTaken(tail: ActiveKvTail, shape: AttentionShape) {
    && tail.layer == 0 && tail.kvHead < shape.kvHeadCount && tail.headDim == shape.headDim
    && tail.tokenCount > 0 && tail.tokenBegin + tail.tokenCount < UINT32
    && |tail.k| == |tail.v| == tail.tokenCount * tail.headDim
  }

  predicate ShapeTaken(shape: AttentionShape) {
    && shape.queryCount > 0 && shape.kvHeadCount > 0 && shape.headDim > 0 && shape.scoreScale > 0.0
    && shape.queryHeadCount >= shape.kvHeadCount && shape.queryHeadCount % shape.kvHeadCount == 0
  }

  /** Two pages of one head hold one position. */
  ghost predicate HeldTwice(pages: seq<SealedKvPage>) {
    exists i, j :: 0 <= i < j < |pages| && pages[i].kvHead == pages[j].kvHead
      && exists t: nat :: HasPosition(pages[i], t) && HasPosition(pages[j], t)
  }

  /** Some query head has no token in its window. */
  ghost predicate SeesNothing(exp: Exp, io: Inputs)
    requires io.Accepted()
  {
    exists q, qh :: 0 <= q < io.shape.queryCount && 0 <= qh < io.shape.queryHeadCount
      && Head(io, q, qh).Sum(exp, Presence) == 0.0
  }

  lemma ShapeIs(shape: AttentionShape)
    ensures ShapeTaken(shape) <==> shape.Valid()
  {
    if 0 < shape.queryHeadCount < shape.kvHeadCount {
      assert shape.queryHeadCount % shape.kvHeadCount == shape.queryHeadCount;
    }
  }

  lemma FitIs(io: Inputs)
    requires ShapeTaken(io.shape)
    ensures PagesFit(io.pages, io.shape) <==> forall i :: 0 <= i < |io.pages| ==> PageTaken(io.pages[i], io.shape)
    ensures TailsFit(io.tails, io.shape) <==> forall i :: 0 <= i < |io.tails| ==> TailTaken(io.tails[i], io.shape)
  {
    forall i | 0 <= i < |io.pages|
      ensures PageTaken(io.pages[i], io.shape) <==> PageFits(io.pages[i], io.shape)
    {
    }
    forall i | 0 <= i < |io.tails|
      ensures TailTaken(io.tails[i], io.shape) <==> TailFits(io.tails[i], io.shape)
    {
    }
  }

  lemma OverlapIs(pages: seq<SealedKvPage>)
    requires forall i :: 0 <= i < |pages| ==> pages[i].tokenCount > 0
    ensures Overlapping(pages) <==> HeldTwice(pages)
  {
    hide Overlap, HasPosition;
    forall i, j | 0 <= i < j < |pages|
      ensures Overlap(pages[i], pages[j]) <==> (
        && pages[i].kvHead == pages[j].kvHead
        && exists t: nat :: HasPosition(pages[i], t) && HasPosition(pages[j], t))
    {
      OverlapExactly(pages[i], pages[j]);
    }
  }

  lemma BlindIs(exp: Exp, io: Inputs)
    requires io.Accepted() && forall q :: 0 <= q < io.shape.queryCount ==> WindowKept(io.shape, q)
    ensures io.Blind() <==> SeesNothing(exp, io)
  {
    hide Inputs.Accepted, WindowKept, Head.Sum, Inputs.Row, Inputs.Taken;
    forall q, qh | 0 <= q < io.shape.queryCount && 0 <= qh < io.shape.queryHeadCount
      ensures io.Row(q, qh) == [] <==> Head(io, q, qh).Sum(exp, Presence) == 0.0
    {
      Head(io, q, qh).CountsFromInputs(exp);
    }
  }

  /** Main result: the call gives an output exactly when its shape, pages and tails are as it takes them, no position of
      a head is in two pages, and every query head has a token in its window. */
  lemma AnsweredExactly(exp: Exp, io: Inputs, r: AttentionResult)
    requires |io.queries| == io.shape.queryCount * io.shape.queryHeadCount * io.shape.headDim && io.Correct(exp, r)
    requires forall q :: 0 <= q < io.shape.queryCount ==> WindowKept(io.shape, q)
    ensures r.Output? <==> (
      && ShapeTaken(io.shape)
      && (forall i :: 0 <= i < |io.pages| ==> PageTaken(io.pages[i], io.shape))
      && (forall i :: 0 <= i < |io.tails| ==> TailTaken(io.tails[i], io.shape))
      && !HeldTwice(io.pages)
      && (io.Accepted() ==> !SeesNothing(exp, io)))
  {
    hide PagesFit, TailsFit, Overlapping, HeldTwice, SeesNothing, Inputs.Blind, Inputs.Answered, Inputs.Tallied,
         WindowKept;
    ShapeIs(io.shape);
    if ShapeTaken(io.shape) {
      FitIs(io);
      if io.Accepted() {
        OverlapIs(io.pages);
        BlindIs(exp, io);
      }
    }
  }
}
