/** Validation of a cache layout and its byte accounting in checked 64-bit arithmetic. */
module KvLayout {
  import opened Common
  import opened Arithmetic
  import opened OnlineSoftmax
  import opened Permutations

  type U32 = x: nat | x < UINT32
  type U64 = x: nat | x < UINT64

  /** The size of a page descriptor on a 64-bit target: ten 32-bit fields, eight pointers, eight counts. */
  const PAGE_VIEW_BYTES: nat := 168

  datatype Checked = Fits(value: U64) | Overflow

  /** Addition that reports overflow by comparing before adding. */
  function AddU64(a: U64, b: U64): (r: Checked)
    ensures r == if a + b <= UINT64_MAX then Fits(a + b) else Overflow
  {
    if a > UINT64_MAX - b then Overflow else Fits(a + b)
  }

  /** Multiplication that reports overflow by dividing before multiplying. */
  function MulU64(a: U64, b: U64): (r: Checked)
    ensures r == if a * b <= UINT64_MAX then Fits(a * b) else Overflow
  {
    DivisionGuard(a, b);
    if a != 0 && b > UINT64_MAX / a then Overflow else Fits(a * b)
  }

  lemma DivisionGuard(a: U64, b: U64)
    ensures a != 0 ==> (b > UINT64_MAX / a <==> a * b > UINT64_MAX)
  {
    if a != 0 {
      var q, rest := UINT64_MAX / a, UINT64_MAX % a;
      assert UINT64_MAX == q * a + rest;
      if b > q {
        RowInside(q, b, a);
      } else if b < q {
        RowInside(b, q, a);
      }
    }
  }

  // ---- descriptors --------------------------------------------------------------------------

  /** A pointer, null or not, with its element count. */
  datatype Buffer = Buffer(present: bool, count: U64)
  {
    predicate Counted() { count == 0 || present }
    predicate NonEmpty() { Counted() && count != 0 }
  }

  datatype PageView = PageView(abiOk: bool, sealed: bool, layer: U32, kvHead: U32, tokenBegin: U32, tokenCount: U32,
                               headDim: U32, blockSize: U32,
                               kWords: Buffer, kBlocks: Buffer, kLut: Buffer, kScales: Buffer,
                               vWords: Buffer, vBlocks: Buffer, vLut: Buffer, vScales: Buffer)
  {
    function End(): nat { tokenBegin + tokenCount }
  }

  datatype CacheLayout = CacheLayout(abiOk: bool, layerCount: U32, kvHeadCount: U32, headDim: U32,
                                     pageCapacityTokens: U32, activeTokenBegin: U32, activeTokenCount: U32,
                                     activeElementBytes: U32, pages: seq<PageView>, activeKBytes: U64,
                                     activeVBytes: U64)

  function ValidatePage(page: PageView): Status {
    if !page.abiOk then InvalidArgument
    else if !page.sealed || page.tokenCount == 0 || page.headDim == 0 || page.headDim > MAX_HEAD_DIM
      || page.blockSize == 0
      then InvalidArgument
    else if !page.kWords.NonEmpty() || !page.vWords.NonEmpty() || !page.kBlocks.NonEmpty() || !page.vBlocks.NonEmpty()
            || !page.kLut.NonEmpty() || !page.vLut.NonEmpty() || !page.kScales.Counted() || !page.vScales.Counted()
      then InvalidArgument
    else if page.kScales.count != page.headDim || page.vScales.count != page.tokenCount then InvalidArgument
    else
      PageValuesFit(page.tokenCount, page.headDim);
      match MulU64(page.tokenCount, page.headDim)
      case Overflow => Unsupported
      case Fits(values) =>
        var minimumBlocks := (values + page.blockSize - 1) / page.blockSize;
        if page.kBlocks.count < minimumBlocks || page.vBlocks.count < minimumBlocks then InvalidArgument
        else if page.tokenBegin > UINT32_MAX - page.tokenCount then InvalidArgument
        else Ok
  }

  /** A page of at most 128 channels never overflows its value count, so the check that could report it is dead. */
  lemma PageValuesFit(tokenCount: U32, headDim: U32)
    requires headDim <= MAX_HEAD_DIM
    ensures tokenCount * headDim + UINT32_MAX <= UINT64_MAX
  {
    assert tokenCount * headDim <= tokenCount * 128 by {
      assert tokenCount * (128 - headDim) >= 0;
    }
  }

  /** Everything the buffers of a page must be. */
  predicate BuffersOk(page: PageView) {
    && (forall b :: b in [page.kWords, page.kBlocks, page.kLut, page.vWords, page.vBlocks, page.vLut] ==>
          b.present && b.count > 0)
    && page.kScales.present && page.kScales.count == page.headDim
    && page.vScales.present && page.vScales.count == page.tokenCount
  }

  /** Main result: what an accepted page is: all buffers there, enough blocks for every value, one key scale per
      channel, one value scale per token, and an end that fits 32 bits. */
  lemma AcceptedPage(page: PageView)
    ensures ValidatePage(page) != Unsupported
    ensures ValidatePage(page) == Ok <==> (
      && page.abiOk && page.sealed && BuffersOk(page)
      && page.tokenCount > 0 && 0 < page.headDim <= 128 && page.blockSize > 0
      && page.tokenCount * page.headDim <= page.kBlocks.count * page.blockSize
      && page.tokenCount * page.headDim <= page.vBlocks.count * page.blockSize
      && page.tokenBegin + page.tokenCount <= UINT32_MAX)
  {
    if page.headDim <= MAX_HEAD_DIM {
      PageValuesFit(page.tokenCount, page.headDim);
      if page.blockSize > 0 {
        EnoughBlocks(page.tokenCount * page.headDim, page.blockSize, page.kBlocks.count);
        EnoughBlocks(page.tokenCount * page.headDim, page.blockSize, page.vBlocks.count);
      }
    }
    BuffersAre(page);
  }

  lemma BuffersAre(page: PageView)
    ensures BuffersOk(page) <==> (
      && page.kWords.NonEmpty() && page.vWords.NonEmpty() && page.kBlocks.NonEmpty() && page.vBlocks.NonEmpty()
      && page.kLut.NonEmpty() && page.vLut.NonEmpty()
      && page.kScales.present && page.vScales.present
      && page.kScales.count == page.headDim && page.vScales.count == page.tokenCount)
  {
    var all := [page.kWords, page.kBlocks, page.kLut, page.vWords, page.vBlocks, page.vLut];
    assert all[0] in all && all[1] in all && all[2] in all && all[3] in all && all[4] in all && all[5] in all;
  }

  lemma EnoughBlocks(values: nat, size: nat, blocks: nat)
    requires size > 0
    ensures blocks >= (values + size - 1) / size <==> values <= blocks * size
  {
    QuotientAtLeast(values + size - 1, size, blocks + 1);
    Distributes(size, blocks, 1);
  }

  // ---- the layout ---------------------------------------------------------------------------

  predicate Overlap(a: PageView, b: PageView) {
    && a.layer == b.layer && a.kvHead == b.kvHead
    && a.tokenBegin < b.End() && b.tokenBegin < a.End()
  }

  predicate PageFitsLayout(page: PageView, layout: CacheLayout) {
    && ValidatePage(page) == Ok
    && page.layer < layout.layerCount && page.kvHead < layout.kvHeadCount && page.headDim == layout.headDim
    && page.tokenCount <= layout.pageCapacityTokens && page.End() <= layout.activeTokenBegin
  }

  predicate HeaderOk(layout: CacheLayout) {
    && layout.abiOk && layout.layerCount != 0 && layout.kvHeadCount != 0 && layout.headDim != 0
    && layout.headDim <= MAX_HEAD_DIM && layout.pageCapacityTokens != 0
    && layout.activeElementBytes != 0 && layout.activeElementBytes <= 8
    && layout.activeTokenCount <= layout.pageCapacityTokens
  }

  /** The bytes one tensor of the active tail needs, without bound. */
  function ActiveBytes(layout: CacheLayout): nat {
    layout.activeTokenCount * layout.layerCount * layout.kvHeadCount * layout.headDim * layout.activeElementBytes
  }

  /** A product of checked factors fits exactly when it does; a zero factor anywhere keeps it at zero. */
  function ActiveProduct(layout: CacheLayout): (r: Checked)
  {
    match MulU64(layout.activeTokenCount, layout.layerCount)
    case Overflow => Overflow
    case Fits(a) =>
      match MulU64(a, layout.kvHeadCount)
      case Overflow => Overflow
      case Fits(b) =>
        match MulU64(b, layout.headDim)
        case Overflow => Overflow
        case Fits(c) => MulU64(c, layout.activeElementBytes)
  }

  lemma Grows(a: nat, f: nat)
    requires f != 0
    ensures a <= a * f
  {
    assert a * (f - 1) >= 0;
  }

  lemma ProductExact(layout: CacheLayout)
    requires HeaderOk(layout)
    ensures ActiveProduct(layout) == if ActiveBytes(layout) <= UINT64_MAX then Fits(ActiveBytes(layout)) else Overflow
  {
    hide MulU64;
    var a := layout.activeTokenCount * layout.layerCount;
    var b := a * layout.kvHeadCount;
    var c := b * layout.headDim;
    Grows(a, layout.kvHeadCount);
    Grows(b, layout.headDim);
    Grows(c, layout.activeElementBytes);
  }

  ghost predicate PagesFitLayout(layout: CacheLayout) {
    forall i :: 0 <= i < |layout.pages| ==> PageFitsLayout(layout.pages[i], layout)
  }

  ghost predicate PagesDisjoint(pages: seq<PageView>) {
    forall i, j :: 0 <= i < j < |pages| ==> !Overlap(pages[i], pages[j])
  }

  ghost predicate AcceptedLayout(layout: CacheLayout) {
    && HeaderOk(layout)
    && ActiveBytes(layout) <= UINT64_MAX
    && layout.activeKBytes >= ActiveBytes(layout) && layout.activeVBytes >= ActiveBytes(layout)
    && PagesFitLayout(layout) && PagesDisjoint(layout.pages)
  }

  /** Accepts exactly the layouts whose pages fit and are pairwise disjoint; overflow of the active
      tail's size is the only unsupported case. */
  method ValidateLayout(layout: CacheLayout) returns (status: Status)
    ensures status == Ok <==> AcceptedLayout(layout)
    ensures status == Unsupported <==> HeaderOk(layout) && ActiveBytes(layout) > UINT64_MAX
  {
    hide Overlap, ActiveProduct, ActiveBytes, ValidatePage;
    if !HeaderOk(layout) {
      return InvalidArgument;
    }
    ProductExact(layout);
    match ActiveProduct(layout)
    case Overflow =>
      return Unsupported;
    case Fits(expected) =>
      if layout.activeKBytes < expected || layout.activeVBytes < expected {
        return InvalidArgument;
      }
      for i := 0 to |layout.pages|
        invariant forall a :: 0 <= a < i ==> PageFitsLayout(layout.pages[a], layout)
        invariant forall a, b :: 0 <= a < i && a < b < |layout.pages| ==> !Overlap(layout.pages[a], layout.pages[b])
      {
        AcceptedPage(layout.pages[i]);
        if ValidatePage(layout.pages[i]) != Ok {
          return ValidatePage(layout.pages[i]);
        }
        if !PageFitsLayout(layout.pages[i], layout) {
          return InvalidArgument;
        }
        for j := i + 1 to |layout.pages|
          invariant forall b :: i < b < j ==> !Overlap(layout.pages[i], layout.pages[b])
        {
          if Overlap(layout.pages[i], layout.pages[j]) {
            return InvalidArgument;
          }
        }
      }
      status := Ok;
  }

  // ---- what disjointness gives ----------------------------------------------------------------

  /** Token positions a page covers. */
  ghost function Covered(page: PageView): (s: set<nat>)
    ensures forall t: nat :: t in s <==> page.tokenBegin <= t < page.End()
    ensures |s| == page.tokenCount
  {
    Interval(page.tokenBegin, page.End())
  }

  ghost function Interval(lo: nat, hi: nat): (s: set<nat>)
    requires lo <= hi
    ensures forall t: nat :: t in s <==> lo <= t < hi
    ensures |s| == hi - lo
    decreases hi
  {
    if lo == hi then {} else Interval(lo, hi - 1) + {hi - 1}
  }

  /** Two pages overlap exactly when they are of one layer and head and share a position. */
  lemma OverlapExactly(a: PageView, b: PageView)
    requires a.tokenCount > 0 && b.tokenCount > 0
    ensures Overlap(a, b) <==> (
      && a.layer == b.layer && a.kvHead == b.kvHead && exists t :: t in Covered(a) && t in Covered(b))
  {
    if Overlap(a, b) {
      var t := if a.tokenBegin < b.tokenBegin then b.tokenBegin else a.tokenBegin;
      assert t in Covered(a) && t in Covered(b);
    }
  }

  /** The page belongs to the layout, and all its positions are sealed history. */
  ghost predicate Belongs(page: PageView, layout: CacheLayout) {
    && ValidatePage(page) == Ok && page.layer < layout.layerCount && page.kvHead < layout.kvHeadCount
    && page.headDim == layout.headDim && |Covered(page)| <= layout.pageCapacityTokens
    && forall t :: t in Covered(page) ==> t < layout.activeTokenBegin
  }

  /** No position of a layer and head is in two pages. */
  ghost predicate HeldOnce(pages: seq<PageView>) {
    forall i, j :: 0 <= i < j < |pages| && pages[i].layer == pages[j].layer && pages[i].kvHead == pages[j].kvHead ==>
      Covered(pages[i]) !! Covered(pages[j])
  }

  lemma BelongsIs(page: PageView, layout: CacheLayout)
    ensures Belongs(page, layout) <==> PageFitsLayout(page, layout)
  {
    hide ValidatePage;
    if ValidatePage(page) == Ok {
      AcceptedPage(page);
      assert page.End() - 1 in Covered(page);
    }
  }

  /** Main result: an accepted layout, in terms of the positions its pages cover. */
  lemma AcceptedExactly(layout: CacheLayout)
    ensures AcceptedLayout(layout) <==> (
      && layout.abiOk && layout.layerCount > 0 && layout.kvHeadCount > 0 && 0 < layout.headDim <= 128
      && layout.activeTokenCount <= layout.pageCapacityTokens && layout.pageCapacityTokens > 0
      && 0 < layout.activeElementBytes <= 8
      && ActiveBytes(layout) <= layout.activeKBytes && ActiveBytes(layout) <= layout.activeVBytes
      && (forall i :: 0 <= i < |layout.pages| ==> Belongs(layout.pages[i], layout))
      && HeldOnce(layout.pages))
  {
    hide ActiveBytes, Belongs, PageFitsLayout, Overlap, ValidatePage;
    var pages := layout.pages;
    forall i | 0 <= i < |pages|
      ensures Belongs(pages[i], layout) <==> PageFitsLayout(pages[i], layout)
    {
      BelongsIs(pages[i], layout);
    }
    if forall i :: 0 <= i < |pages| ==> PageFitsLayout(pages[i], layout) {
      forall i, j | 0 <= i < j < |pages|
        ensures Overlap(pages[i], pages[j]) <==> (
          && pages[i].layer == pages[j].layer && pages[i].kvHead == pages[j].kvHead
          && !(Covered(pages[i]) !! Covered(pages[j])))
      {
        FittingIsFull(pages[i], layout);
        FittingIsFull(pages[j], layout);
        OverlapExactly(pages[i], pages[j]);
      }
    }
  }

  lemma FittingIsFull(page: PageView, layout: CacheLayout)
    requires PageFitsLayout(page, layout)
    ensures page.tokenCount > 0
  {
    hide ValidatePage;
    AcceptedPage(page);
  }

  /** The tokens that the pages of one layer and head hold together. */
  function HeadTokens(pages: seq<PageView>, layer: nat, kvHead: nat): nat {
    if pages == [] then 0
    else
      var last := pages[|pages| - 1];
      HeadTokens(pages[..|pages| - 1], layer, kvHead)
      + (if last.layer == layer && last.kvHead == kvHead then last.tokenCount else 0)
  }

  ghost function HeadCovered(pages: seq<PageView>, layer: nat, kvHead: nat): set<nat> {
    if pages == [] then {}
    else
      var last := pages[|pages| - 1];
      HeadCovered(pages[..|pages| - 1], layer, kvHead)
      + (if last.layer == layer && last.kvHead == kvHead then Covered(last) else {})
  }

  lemma {:induction false} CoveredBy(pages: seq<PageView>, layer: nat, kvHead: nat, t: nat)
    requires t in HeadCovered(pages, layer, kvHead)
    ensures exists i :: (
      0 <= i < |pages| && pages[i].layer == layer && pages[i].kvHead == kvHead && t in Covered(pages[i]))
  {
    var init, last := pages[..|pages| - 1], pages[|pages| - 1];
    if last.layer == layer && last.kvHead == kvHead && t in Covered(last) {
      assert pages[|pages| - 1] == last;
    } else {
      CoveredBy(init, layer, kvHead, t);
      var i :| 0 <= i < |init| && init[i].layer == layer && init[i].kvHead == kvHead && t in Covered(init[i]);
      assert pages[i] == init[i];
    }
  }

  /** Disjoint pages cover as many positions as they hold tokens. */
  lemma {:induction false} CoveredSize(pages: seq<PageView>, layer: nat, kvHead: nat)
    requires PagesDisjoint(pages)
    ensures |HeadCovered(pages, layer, kvHead)| == HeadTokens(pages, layer, kvHead)
  {
    if pages != [] {
      var init, last := pages[..|pages| - 1], pages[|pages| - 1];
      CoveredSize(init, layer, kvHead);
      if last.layer == layer && last.kvHead == kvHead {
        forall t | t in HeadCovered(init, layer, kvHead)
          ensures t !in Covered(last)
        {
          CoveredBy(init, layer, kvHead, t);
          var i :| 0 <= i < |init| && init[i].layer == layer && init[i].kvHead == kvHead && t in Covered(init[i]);
          assert !Overlap(pages[i], pages[|pages| - 1]);
        }
        assert HeadCovered(init, layer, kvHead) !! Covered(last);
      }
    }
  }

  /** In an accepted layout the sealed tokens of every layer and head fit before the active tail. */
  lemma SealedHistoryFits(layout: CacheLayout, layer: nat, kvHead: nat)
    requires AcceptedLayout(layout)
    ensures HeadTokens(layout.pages, layer, kvHead) <= layout.activeTokenBegin
  {
    hide HeadCovered, HeadTokens, ValidatePage, ActiveBytes;
    var all := HeadCovered(layout.pages, layer, kvHead);
    CoveredSize(layout.pages, layer, kvHead);
    forall t | t in all
      ensures t in Range(layout.activeTokenBegin)
    {
      CoveredBy(layout.pages, layer, kvHead, t);
    }
    SubsetSize(all, Range(layout.activeTokenBegin));
  }

  // ---- memory accounting -----------------------------------------------------------------------

  /** The counts whose elements take four bytes each. */
  function PayloadCounts(page: PageView): (c: seq<U64>) {
    [page.kWords.count, page.vWords.count, page.kBlocks.count, page.vBlocks.count,
     page.kLut.count, page.vLut.count, page.kScales.count, page.vScales.count]
  }

  function Total(counts: seq<nat>): nat {
    if counts == [] then 0 else Total(counts[..|counts| - 1]) + 4 * counts[|counts| - 1]
  }

  /** A page's payload bytes, without bound. */
  function PageBytes(page: PageView): nat {
    Total(PayloadCounts(page))
  }

  /** Every element of every buffer takes four bytes. */
  lemma PageBytesAre(page: PageView)
    ensures PageBytes(page) == 4 * (page.kWords.count + page.vWords.count + page.kBlocks.count + page.vBlocks.count
                                    + page.kLut.count + page.vLut.count + page.kScales.count + page.vScales.count)
  {
    TotalOfFour(page.kWords.count, page.vWords.count, page.kBlocks.count, page.vBlocks.count, []);
    TotalOfFour(page.kLut.count, page.vLut.count, page.kScales.count, page.vScales.count,
                [page.kWords.count, page.vWords.count, page.kBlocks.count, page.vBlocks.count]);
    var half := [page.kWords.count, page.vWords.count, page.kBlocks.count, page.vBlocks.count];
    assert [] + half == half;
    assert PayloadCounts(page)
        == half + [page.kLut.count, page.vLut.count, page.kScales.count, page.vScales.count];
  }

  lemma TotalOfFour(a: nat, b: nat, c: nat, d: nat, before: seq<nat>)
    ensures Total(before + [a, b, c, d]) == Total(before) + 4 * (a + b + c + d)
  {
    TotalNext(before, a);
    TotalNext(before + [a], b);
    TotalNext(before + [a] + [b], c);
    TotalNext(before + [a] + [b] + [c], d);
    assert before + [a, b, c, d] == before + [a] + [b] + [c] + [d];
  }

  lemma TotalNext(before: seq<nat>, x: nat)
    ensures Total(before + [x]) == Total(before) + 4 * x
  {
    assert (before + [x])[..|before|] == before;
  }

  /** Adds array sizes one by one, reporting the first overflow. */
  method SumArrays(counts: seq<U64>) returns (r: Checked)
    ensures r == if Total(counts) <= UINT64_MAX then Fits(Total(counts)) else Overflow
  {
    var total: U64 := 0;
    for i := 0 to |counts|
      invariant total == Total(counts[..i])
    {
      assert counts[..i + 1][..i] == counts[..i];
      TotalMonotone(counts, i + 1);
      match MulU64(counts[i], 4)
      case Overflow => return Overflow;
      case Fits(bytes) =>
        match AddU64(total, bytes)
        case Overflow => return Overflow;
        case Fits(next) => total := next;
    }
    assert counts[..|counts|] == counts;
    r := Fits(total);
  }

  lemma {:induction false} TotalMonotone(counts: seq<nat>, i: nat)
    requires i <= |counts|
    ensures Total(counts[..i]) <= Total(counts)
    decreases |counts| - i
  {
    if i < |counts| {
      TotalMonotone(counts, i + 1);
      assert counts[..i + 1][..i] == counts[..i];
    } else {
      assert counts[..i] == counts;
    }
  }

  method PageResidentBytes(page: PageView) returns (status: Status, bytes: U64)
    ensures status == (if ValidatePage(page) != Ok then ValidatePage(page)
                       else if PageBytes(page) > UINT64_MAX then Unsupported else Ok)
    ensures status == Ok ==> bytes == PageBytes(page)
  {
    hide ValidatePage, PayloadCounts, Total;
    bytes := 0;
    if ValidatePage(page) != Ok {
      return ValidatePage(page), 0;
    }
    var r := SumArrays(PayloadCounts(page));
    match r
    case Overflow => status := Unsupported;
    case Fits(total) => status, bytes := Ok, total;
  }

  datatype MemoryStats = MemoryStats(sealedPayloadBytes: U64, sealedDescriptorBytes: U64, activePayloadBytes: U64,
                                     totalResidentBytes: U64, sealedTokens: U64, activeTokens: U64, pageCount: U64)

  function SealedBytes(pages: seq<PageView>): nat {
    if pages == [] then 0 else SealedBytes(pages[..|pages| - 1]) + PageBytes(pages[|pages| - 1])
  }

  function SealedTokens(pages: seq<PageView>): nat {
    if pages == [] then 0 else SealedTokens(pages[..|pages| - 1]) + pages[|pages| - 1].tokenCount
  }

  /** Everything resident, without bound. */
  function Resident(layout: CacheLayout): nat {
    SealedBytes(layout.pages) + PAGE_VIEW_BYTES * |layout.pages| + layout.activeKBytes + layout.activeVBytes
  }

  lemma {:induction false} SealedMonotone(pages: seq<PageView>, i: nat)
    requires i <= |pages|
    ensures SealedBytes(pages[..i]) <= SealedBytes(pages)
    decreases |pages| - i
  {
    if i < |pages| {
      SealedMonotone(pages, i + 1);
      assert pages[..i + 1][..i] == pages[..i];
    } else {
      assert pages[..i] == pages;
    }
  }

  /** A page's value scales alone take four bytes a token, so tokens never overflow before bytes do. */
  lemma {:induction false} TokensBelowBytes(pages: seq<PageView>)
    requires forall i :: 0 <= i < |pages| ==> ValidatePage(pages[i]) == Ok
    ensures 4 * SealedTokens(pages) <= SealedBytes(pages)
  {
    hide ValidatePage, PageBytes;
    if pages != [] {
      TokensBelowBytes(pages[..|pages| - 1]);
      AcceptedPage(pages[|pages| - 1]);
      ScalesCounted(pages[|pages| - 1]);
    }
  }

  lemma ScalesCounted(page: PageView)
    ensures PageBytes(page) >= 4 * page.vScales.count
  {
    var counts := PayloadCounts(page);
    assert counts[..|counts| - 1] + [page.vScales.count] == counts;
  }

  /** The exact unbounded totals, or an overflow report exactly when they do not fit 64 bits. */
  method CacheMemoryStats(layout: CacheLayout) returns (status: Status, stats: MemoryStats)
    requires |layout.pages| <= UINT64_MAX
    ensures AcceptedLayout(layout) ==> (status == if Resident(layout) <= UINT64_MAX then Ok else Unsupported)
    ensures !AcceptedLayout(layout) ==> status != Ok
    ensures status == Ok ==>
      && stats.totalResidentBytes == Resident(layout)
      && stats.sealedPayloadBytes == SealedBytes(layout.pages)
      && stats.sealedDescriptorBytes == PAGE_VIEW_BYTES * |layout.pages|
      && stats.activePayloadBytes == layout.activeKBytes + layout.activeVBytes
      && stats.sealedTokens == SealedTokens(layout.pages)
      && stats.activeTokens == layout.activeTokenCount && stats.pageCount == |layout.pages|
  {
    hide AcceptedLayout, ValidatePage, PageBytes, SealedBytes, SealedTokens;
    stats := MemoryStats(0, 0, 0, 0, 0, 0, 0);
    status := ValidateLayout(layout);
    if status != Ok {
      return;
    }
    AcceptedPages(layout);
    var active := AddU64(layout.activeKBytes, layout.activeVBytes);
    var descriptors := MulU64(|layout.pages|, PAGE_VIEW_BYTES);
    if active == Overflow || descriptors == Overflow {
      return Unsupported, stats;
    }
    var ok, payload, tokens := SumPages(layout.pages);
    if !ok {
      return Unsupported, stats;
    }
    var partial := AddU64(payload, descriptors.value);
    if partial == Overflow {
      return Unsupported, stats;
    }
    var total := AddU64(partial.value, active.value);
    if total == Overflow {
      return Unsupported, stats;
    }
    stats := MemoryStats(payload, descriptors.value, active.value, total.value, tokens, layout.activeTokenCount,
                         |layout.pages|);
  }

  lemma AcceptedPages(layout: CacheLayout)
    requires AcceptedLayout(layout)
    ensures forall i :: 0 <= i < |layout.pages| ==> ValidatePage(layout.pages[i]) == Ok
  {
    hide ValidatePage;
    forall i | 0 <= i < |layout.pages|
      ensures ValidatePage(layout.pages[i]) == Ok
    {
      assert PageFitsLayout(layout.pages[i], layout);
    }
  }

  method SumPages(pages: seq<PageView>) returns (ok: bool, payload: U64, tokens: U64)
    requires forall i :: 0 <= i < |pages| ==> ValidatePage(pages[i]) == Ok
    ensures ok <==> SealedBytes(pages) <= UINT64_MAX
    ensures ok ==> payload == SealedBytes(pages) && tokens == SealedTokens(pages)
  {
    hide ValidatePage, PageBytes;
    payload, tokens := 0, 0;
    for i := 0 to |pages|
      invariant payload == SealedBytes(pages[..i]) && tokens == SealedTokens(pages[..i])
    {
      assert pages[..i + 1][..i] == pages[..i];
      SealedMonotone(pages, i + 1);
      TokensBelowBytes(pages[..i + 1]);
      var status, bytes := PageResidentBytes(pages[i]);
      if status != Ok {
        return false, 0, 0;
      }
      var next := AddU64(payload, bytes);
      if next == Overflow {
        return false, 0, 0;
      }
      payload := next.value;
      var more := AddU64(tokens, pages[i].tokenCount);
      if more == Overflow {
        return false, 0, 0;
      }
      tokens := more.value;
    }
    assert pages[..|pages|] == pages;
    ok := true;
  }
}
