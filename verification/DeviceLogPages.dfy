/**
  The pages of one query over a store that is cleaned up and written to between them: they return
  what the first page could see and match, as long as it stays in the time range.
  */
module DeviceLogPages {
  import opened Sequences
  import opened DeviceLogLine
  import opened DeviceLogSegment
  import opened DeviceLogMetadata
  import opened DeviceLogQuery
  import opened DeviceLogPruning
  import opened DeviceLogPaging
  import opened DeviceLogStoreView

  /** One page: the store its query found, and what came of it. */
  datatype PageQuery = PageQuery(
    files: Files, batches: seq<MetadataRow>, nowMs: nat, expired: nat -> bool, cancel: Option<nat -> bool>,
    scanned: seq<QueryRow>, stale: set<string>, polls: nat, response: Response)

  ghost predicate ComesTo(request: Request, engine: RegexEngine, page: PageQuery, answer: Result<Response, string>) {
    QueryOutcome(
      page.files, page.batches, request, page.nowMs, engine, page.expired, page.cancel, answer, page.scanned,
      page.stale, page.polls)
  }

  ghost predicate Answered(request: Request, engine: RegexEngine, page: PageQuery) {
    ComesTo(request, engine, page, Ok(page.response))
  }

  function OwnBatches(page: PageQuery, streamId: string): seq<MetadataRow> {
    Filter(page.batches, OfStream(streamId))
  }

  ghost predicate SoundAt(page: PageQuery, streamId: string) {
    Ordered(OwnBatches(page, streamId)) && Sound(page.files, OwnBatches(page, streamId))
  }

  /**
    From one page to the next: time does not go back, the rows of stale files went, batches may have
    come before the others, and the others read as they did.
    */
  ghost predicate Succeeds(page: PageQuery, next: PageQuery, streamId: string) {
    var left := Without(OwnBatches(page, streamId), page.stale);
    && page.nowMs <= next.nowMs
    && IsSuffix(left, OwnBatches(next, streamId))
    && forall batch <- left :: BatchRows(next.files, batch) == BatchRows(page.files, batch)
  }

  /** The pages of a request, in turn, at most until the cursor is absent. */
  ghost predicate PagesOf(request: Request, engine: RegexEngine, pages: seq<PageQuery>)
    decreases |pages|
  {
    && pages != []
    && var page := pages[0];
       && SoundAt(page, request.streamId) && Answered(request, engine, page)
       && (|pages| > 1 ==>
             && page.response.nextCursorSeq.Some? && Succeeds(page, pages[1], request.streamId)
             && PagesOf(NextRequest(request, page.response), engine, pages[1..]))
  }

  ghost predicate NoPageCancelled(pages: seq<PageQuery>) {
    forall page <- pages, p: nat :: !PollsCancelled(page.cancel, p)
  }

  /** What a page could return to a request: every readable row of its stream in its time range. */
  function ViewOf(request: Request, page: PageQuery): seq<QueryRow> {
    AllRows(page.files, QueriedBatches(page.batches, request, page.nowMs))
  }

  function Since(startMs: nat): MetadataRow -> bool {
    (row: MetadataRow) => startMs <= row.receivedAtMs
  }

  /** Of what the first page could see, the part whose time range is still open at `nowMs`. */
  function StillInRange(request: Request, first: PageQuery, nowMs: nat): seq<QueryRow> {
    var queried := QueriedBatches(first.batches, request, first.nowMs);
    AllRows(first.files, Filter(queried, Since(RangeStart(nowMs, request.timeRangeMs))))
  }

  /** Every batch the first page could see is in the time range at `nowMs`. */
  ghost predicate NothingDroppedOut(request: Request, first: PageQuery, nowMs: nat) {
    forall batch <- QueriedBatches(first.batches, request, first.nowMs) ::
      RangeStart(nowMs, request.timeRangeMs) <= batch.receivedAtMs
  }

  // ----- A store nobody writes to -----

  /** Nothing but the clean-up of each query touches the store. */
  ghost predicate QuietPages(request: Request, engine: RegexEngine, pages: seq<PageQuery>)
    decreases |pages|
  {
    && pages != []
    && var page := pages[0];
       && Answered(request, engine, page)
       && (|pages| > 1 ==>
             && page.response.nextCursorSeq.Some? && page.nowMs <= pages[1].nowMs
             && pages[1].files == page.files && pages[1].batches == Without(page.batches, page.stale)
             && QuietPages(NextRequest(request, page.response), engine, pages[1..]))
  }

  lemma {:induction false} QuietPagesArePages(request: Request, engine: RegexEngine, pages: seq<PageQuery>)
    requires QuietPages(request, engine, pages) && SoundAt(pages[0], request.streamId)
    ensures PagesOf(request, engine, pages)
    decreases |pages|
  {
    hide Answered, Sound, Ordered, BatchRows;
    if |pages| > 1 {
      var page, next := pages[0], pages[1];
      var own := OwnBatches(page, request.streamId);
      WithoutOfStream(page.batches, page.stale, request.streamId);
      SoundSelection(page.files, own, OutsideFiles(page.stale));
      FilterKeepsOrder(own, OutsideFiles(page.stale));
      QuietPagesArePages(NextRequest(request, page.response), engine, pages[1..]);
    }
  }

  // ----- Selecting batches by time -----

  function Between(fromMs: nat, toMs: nat): MetadataRow -> bool {
    (row: MetadataRow) => fromMs <= row.receivedAtMs < toMs
  }

  lemma {:induction false} RowsConcat(files: Files, a: seq<MetadataRow>, b: seq<MetadataRow>)
    ensures AllRows(files, a + b) == AllRows(files, b) + AllRows(files, a)
  {
    hide BatchRows;
    if a == [] {
      assert a + b == b;
    } else {
      assert (a + b)[1..] == a[1..] + b && (a + b)[0] == a[0];
      RowsConcat(files, a[1..], b);
    }
  }

  lemma {:induction false} RowsOfMore(
      files: Files, batches: seq<MetadataRow>, some: MetadataRow -> bool, more: MetadataRow -> bool)
    requires forall batch <- batches :: some(batch) ==> more(batch)
    ensures forall row <- AllRows(files, Filter(batches, some)) :: row in AllRows(files, Filter(batches, more))
  {
    hide BatchRows;
    if batches != [] {
      RowsOfMore(files, batches[1..], some, more);
      var rest := Filter(batches[1..], more);
      if more(batches[0]) {
        assert ([batches[0]] + rest)[1..] == rest;
      }
      if some(batches[0]) {
        var fewer := Filter(batches[1..], some);
        assert ([batches[0]] + fewer)[1..] == fewer;
      }
    }
  }

  /** In a table ordered newest first, a later time range stands before an earlier one. */
  lemma {:induction false} SplitTime(batches: seq<MetadataRow>, fromMs: nat, middleMs: nat, toMs: nat)
    requires Ordered(batches) && fromMs <= middleMs <= toMs
    ensures Filter(batches, Between(fromMs, toMs))
         == Filter(batches, Between(middleMs, toMs)) + Filter(batches, Between(fromMs, middleMs))
  {
    if batches != [] {
      SplitTime(batches[1..], fromMs, middleMs, toMs);
      if batches[0].receivedAtMs < middleMs {
        FilterNone(batches[1..], Between(middleMs, toMs));
      }
    }
  }

  lemma {:induction false} SplitRows(files: Files, batches: seq<MetadataRow>, fromMs: nat, middleMs: nat, toMs: nat)
    requires Ordered(batches) && fromMs <= middleMs <= toMs
    ensures AllRows(files, Filter(batches, Between(fromMs, toMs)))
         == AllRows(files, Filter(batches, Between(fromMs, middleMs)))
            + AllRows(files, Filter(batches, Between(middleMs, toMs)))
  {
    hide AllRows, Filter;
    SplitTime(batches, fromMs, middleMs, toMs);
    RowsConcat(files, Filter(batches, Between(middleMs, toMs)), Filter(batches, Between(fromMs, middleMs)));
  }

  lemma {:induction false} OrderedSuffix(batches: seq<MetadataRow>, i: nat)
    requires Ordered(batches) && i <= |batches|
    ensures Ordered(batches[i..])
  {
    if i > 0 {
      OrderedSuffix(batches[1..], i - 1);
      assert batches[1..][i - 1..] == batches[i..];
    }
  }

  /** Both lists hold the same rows in every time range. */
  ghost predicate SameRows(files: Files, batches: seq<MetadataRow>, later: Files, left: seq<MetadataRow>) {
    forall fromMs, toMs ::
      AllRows(later, Filter(left, Between(fromMs, toMs))) == AllRows(files, Filter(batches, Between(fromMs, toMs)))
  }

  lemma {:induction false} CleanedSame(
      files: Files, batches: seq<MetadataRow>, names: set<string>, later: Files, keep: MetadataRow -> bool)
    requires forall batch <- batches | batch.segmentFile in names :: BatchRows(files, batch) == []
    requires forall batch <- Without(batches, names) :: BatchRows(later, batch) == BatchRows(files, batch)
    ensures AllRows(later, Filter(Without(batches, names), keep)) == AllRows(files, Filter(batches, keep))
  {
    hide BatchRows;
    if batches != [] {
      var head, rest := batches[0], batches[1..];
      var left := Without(rest, names);
      assert forall batch <- rest :: batch in batches;
      assert Without(batches, names) == if head.segmentFile in names then left else [head] + left;
      CleanedSame(files, rest, names, later, keep);
      assert ([head] + left)[1..] == left && head in [head] + left;
      assert ([head] + Filter(rest, keep))[1..] == Filter(rest, keep);
      assert ([head] + Filter(left, keep))[1..] == Filter(left, keep);
      assert head in batches;
    }
  }

  // ----- From page to page -----

  /** All but the newest `newer` batches of the page hold the rows of the first page's. */
  ghost predicate Extends(first: PageQuery, page: PageQuery, streamId: string, newer: nat) {
    && first.nowMs <= page.nowMs && newer <= |OwnBatches(page, streamId)|
    && SameRows(first.files, OwnBatches(first, streamId), page.files, OwnBatches(page, streamId)[newer..])
  }

  /** A file found stale holds no row of the stream, if none of its files is cut short. */
  lemma {:induction false} StaleHoldsNothing(request: Request, engine: RegexEngine, page: PageQuery)
    requires Answered(request, engine, page) && SoundAt(page, request.streamId)
    ensures forall batch <- OwnBatches(page, request.streamId) | batch.segmentFile in page.stale ::
      BatchRows(page.files, batch) == []
  {
    var own := OwnBatches(page, request.streamId);
    assert AllStale(page.files, QueriedBatches(page.batches, request, page.nowMs), page.stale);
    hide BatchLines, LevelsCovered, QueryOutcome, SeqDescending, Ordered, OwnBatches;
    FilterMember(page.batches, OfStream(request.streamId));
    QueriedAreOwn(page, request);
    forall batch <- own | batch.segmentFile in page.stale ensures BatchRows(page.files, batch) == [] {
      var stale :| stale in own && stale.segmentFile == batch.segmentFile && IsStale(page.files, stale);
      assert IsStale(page.files, batch);
    }
  }

  lemma {:induction false} QueriedAreOwn(page: PageQuery, request: Request)
    ensures var startMs, endMs := RangeStart(page.nowMs, request.timeRangeMs), RangeEnd(page.nowMs);
      QueriedBatches(page.batches, request, page.nowMs)
      == Filter(OwnBatches(page, request.streamId), Between(startMs, endMs + 1))
    ensures forall batch <- QueriedBatches(page.batches, request, page.nowMs) ::
      batch in OwnBatches(page, request.streamId)
  {
    var startMs, endMs := RangeStart(page.nowMs, request.timeRangeMs), RangeEnd(page.nowMs);
    FilterTwice(
      page.batches, OfStream(request.streamId), Between(startMs, endMs + 1), Selects(request.streamId, startMs, endMs));
    FilterMember(OwnBatches(page, request.streamId), Between(startMs, endMs + 1));
  }

  lemma {:induction false} WithoutSuffix(
      batches: seq<MetadataRow>, i: nat, names: set<string>, later: seq<MetadataRow>)
    returns (j: nat)
    requires i <= |batches| && IsSuffix(Without(batches, names), later)
    ensures j <= |later| && later[j..] == Without(batches[i..], names)
  {
    FilterConcat(batches[..i], batches[i..], OutsideFiles(names));
    assert batches == batches[..i] + batches[i..];
    var left := Without(batches, names);
    j := |later| - |Without(batches[i..], names)|;
    assert later[j..] == left[|left| - |Without(batches[i..], names)|..];
  }

  lemma {:induction false} WithoutFewer(batches: seq<MetadataRow>, some: seq<MetadataRow>, names: set<string>)
    requires forall batch <- some :: batch in batches
    ensures forall batch <- Without(some, names) :: batch in Without(batches, names)
  {
    FilterMember(batches, OutsideFiles(names));
    FilterMember(some, OutsideFiles(names));
  }

  lemma {:induction false} ExtendsOn(
      first: PageQuery, page: PageQuery, next: PageQuery, request: Request, engine: RegexEngine, newer: nat)
    returns (later: nat)
    requires Extends(first, page, request.streamId, newer)
    requires SoundAt(page, request.streamId) && Answered(request, engine, page)
    requires Succeeds(page, next, request.streamId)
    ensures Extends(first, next, request.streamId, later)
  {
    var own := OwnBatches(page, request.streamId);
    StaleHoldsNothing(request, engine, page);
    hide BatchRows, Answered, SoundAt, OwnBatches, AllRows, Without;
    later := WithoutSuffix(own, newer, page.stale, OwnBatches(next, request.streamId));
    var kept := own[newer..];
    assert forall batch <- kept :: batch in own;
    WithoutFewer(own, kept, page.stale);
    forall fromMs, toMs {
      CleanedSame(page.files, kept, page.stale, next.files, Between(fromMs, toMs));
    }
  }

  /** A page that has lost the oldest `gone` rows of the first and gained rows with later numbers only. */
  ghost predicate Grown(view: seq<QueryRow>, all: seq<QueryRow>, gone: nat) {
    && gone <= |all| && all[gone..] <= view
    && forall seen <- all, row <- view[|all| - gone..] :: seen.seqNo < row.seqNo
  }

  lemma {:induction false} StillInRangeIs(request: Request, first: PageQuery, nowMs: nat)
    requires first.nowMs <= nowMs
    ensures StillInRange(request, first, nowMs)
         == AllRows(first.files, Filter(OwnBatches(first, request.streamId),
              Between(RangeStart(nowMs, request.timeRangeMs), RangeEnd(first.nowMs) + 1)))
  {
    hide AllRows, OwnBatches;
    var own := OwnBatches(first, request.streamId);
    QueriedAreOwn(first, request);
    var startMs, endMs := RangeStart(first.nowMs, request.timeRangeMs), RangeEnd(first.nowMs) + 1;
    FilterTwice(
      own, Between(startMs, endMs), Since(RangeStart(nowMs, request.timeRangeMs)),
      Between(RangeStart(nowMs, request.timeRangeMs), endMs));
  }

  /** What the first page could see: the part that is out of range by now, and the rest. */
  lemma {:induction false} RangeSplits(request: Request, first: PageQuery, nowMs: nat)
    requires first.nowMs <= nowMs && Ordered(OwnBatches(first, request.streamId))
    ensures IsSuffix(StillInRange(request, first, nowMs), ViewOf(request, first))
  {
    hide AllRows, OwnBatches, Ordered;
    var own := OwnBatches(first, request.streamId);
    var startMs, endMs := RangeStart(first.nowMs, request.timeRangeMs), RangeEnd(first.nowMs) + 1;
    var laterMs := RangeStart(nowMs, request.timeRangeMs);
    QueriedAreOwn(first, request);
    StillInRangeIs(request, first, nowMs);
    if laterMs <= endMs {
      SplitRows(first.files, own, startMs, laterMs, endMs);
    } else {
      FilterNone(own, Between(laterMs, endMs));
      NoRows(first.files);
    }
  }

  lemma {:induction false} NoRows(files: Files)
    ensures AllRows(files, []) == []
  {
  }

  /** Rows of the kept batches in a later range: those still in range, then those received since. */
  lemma {:induction false} KeptInRange(
      files: Files, kept: seq<MetadataRow>, endMs: nat, laterStartMs: nat, laterEndMs: nat)
    requires Ordered(kept) && endMs <= laterEndMs && laterStartMs <= laterEndMs
    ensures var middleMs := if laterStartMs < endMs then endMs else laterStartMs;
      AllRows(files, Filter(kept, Between(laterStartMs, laterEndMs)))
      == AllRows(files, Filter(kept, Between(laterStartMs, endMs)))
         + AllRows(files, Filter(kept, Between(middleMs, laterEndMs)))
  {
    hide AllRows, Ordered;
    var middleMs := if laterStartMs < endMs then endMs else laterStartMs;
    SplitRows(files, kept, laterStartMs, middleMs, laterEndMs);
    FilterCongruent(kept, Between(laterStartMs, middleMs), Between(laterStartMs, endMs));
  }

  lemma {:induction false} RowsOfParts(files: Files, own: seq<MetadataRow>, newer: nat, keep: MetadataRow -> bool)
    requires newer <= |own|
    ensures AllRows(files, Filter(own, keep))
         == AllRows(files, Filter(own[newer..], keep)) + AllRows(files, Filter(own[..newer], keep))
  {
    hide AllRows, Filter;
    assert own == own[..newer] + own[newer..];
    FilterConcat(own[..newer], own[newer..], keep);
    RowsConcat(files, Filter(own[..newer], keep), Filter(own[newer..], keep));
  }

  /** The rows of the first page and those that came after it ascend together. */
  lemma {:induction false} WindowAscends(
      files: Files, own: seq<MetadataRow>, newer: nat, startMs: nat, endMs: nat, laterEndMs: nat)
    requires Ordered(own) && Sound(files, own) && newer <= |own| && startMs <= endMs <= laterEndMs
    ensures forall
      seen <- AllRows(files, Filter(own[newer..], Between(startMs, endMs))),
      row <- AllRows(files, Filter(own[newer..], Between(endMs, laterEndMs)))
             + AllRows(files, Filter(own[..newer], Between(startMs, laterEndMs))) ::
      seen.seqNo < row.seqNo
  {
    hide AllRows, Ordered, Sound, Filter;
    OrderedSuffix(own, newer);
    SplitRows(files, own[newer..], startMs, endMs, laterEndMs);
    var window := Between(startMs, laterEndMs);
    RowsOfParts(files, own, newer, window);
    SoundSelection(files, own, window);
    RowsOfSoundAscend(files, Filter(own, window));
    var all := AllRows(files, Filter(own[newer..], Between(startMs, endMs)));
    var since := AllRows(files, Filter(own[newer..], Between(endMs, laterEndMs)));
    var more := AllRows(files, Filter(own[..newer], window));
    assert AllRows(files, Filter(own, window)) == all + (since + more);
    AscendingParts(all, since + more);
  }

  lemma {:induction false} RowsOfSoundAscend(files: Files, batches: seq<MetadataRow>)
    requires Sound(files, batches)
    ensures Ascending(AllRows(files, batches))
  {
    RowsAscend(files, batches);
  }

  /** Rows received since the first page's range, or written since, come after all it could see. */
  lemma {:induction false} SinceIsLater(
      files: Files, own: seq<MetadataRow>, newer: nat, startMs: nat, endMs: nat, middleMs: nat, laterStartMs: nat,
      laterEndMs: nat)
    requires Ordered(own) && Sound(files, own) && newer <= |own|
    requires startMs <= endMs <= middleMs <= laterEndMs && startMs <= laterStartMs
    ensures forall
      seen <- AllRows(files, Filter(own[newer..], Between(startMs, endMs))),
      row <- AllRows(files, Filter(own[newer..], Between(middleMs, laterEndMs)))
             + AllRows(files, Filter(own[..newer], Between(laterStartMs, laterEndMs))) ::
      seen.seqNo < row.seqNo
  {
    hide AllRows, Ordered, Sound, Filter;
    WindowAscends(files, own, newer, startMs, endMs, laterEndMs);
    RowsOfMore(files, own[newer..], Between(middleMs, laterEndMs), Between(endMs, laterEndMs));
    RowsOfMore(files, own[..newer], Between(laterStartMs, laterEndMs), Between(startMs, laterEndMs));
  }

  lemma {:induction false} RangeGrows(request: Request, nowMs: nat, laterMs: nat)
    requires nowMs <= laterMs
    ensures RangeStart(nowMs, request.timeRangeMs) <= RangeStart(laterMs, request.timeRangeMs)
    ensures RangeStart(laterMs, request.timeRangeMs) <= RangeEnd(laterMs) && RangeEnd(nowMs) <= RangeEnd(laterMs)
    ensures RangeStart(nowMs, request.timeRangeMs) <= RangeEnd(nowMs)
  {
  }

  lemma {:induction false} PageGrown(request: Request, first: PageQuery, page: PageQuery, newer: nat)
    requires Extends(first, page, request.streamId, newer) && SoundAt(page, request.streamId)
    requires Ordered(OwnBatches(first, request.streamId))
    ensures var all, left := ViewOf(request, first), StillInRange(request, first, page.nowMs);
      |left| <= |all| && Grown(ViewOf(request, page), all, |all| - |left|)
    ensures Ascending(ViewOf(request, page))
  {
    hide AllRows, OwnBatches, Ordered, Sound, Filter, ViewOf, StillInRange, Between, RangeStart, RangeEnd, Ascending, Grown, IsSuffix;
    var own, files := OwnBatches(page, request.streamId), page.files;
    var kept, fresher := own[newer..], own[..newer];
    var startMs, endMs := RangeStart(first.nowMs, request.timeRangeMs), RangeEnd(first.nowMs) + 1;
    var laterStartMs, laterEndMs := RangeStart(page.nowMs, request.timeRangeMs), RangeEnd(page.nowMs) + 1;
    var middleMs := if laterStartMs < endMs then endMs else laterStartMs;
    RangeGrows(request, first.nowMs, page.nowMs);
    ViewIs(request, page);
    ViewIs(request, first);
    StillInRangeIs(request, first, page.nowMs);
    RangeSplits(request, first, page.nowMs);
    ViewAscends(request, page);
    OrderedSuffix(own, newer);
    KeptInRange(files, kept, endMs, laterStartMs, laterEndMs);
    RowsOfParts(files, own, newer, Between(laterStartMs, laterEndMs));
    SinceIsLater(files, own, newer, startMs, endMs, middleMs, laterStartMs, laterEndMs);
    GrownFrom(
      ViewOf(request, page), ViewOf(request, first), StillInRange(request, first, page.nowMs),
      AllRows(files, Filter(kept, Between(middleMs, laterEndMs))),
      AllRows(files, Filter(fresher, Between(laterStartMs, laterEndMs))));
  }

  lemma {:induction false} ViewIs(request: Request, page: PageQuery)
    ensures ViewOf(request, page)
         == AllRows(page.files, Filter(OwnBatches(page, request.streamId),
              Between(RangeStart(page.nowMs, request.timeRangeMs), RangeEnd(page.nowMs) + 1)))
  {
    hide AllRows, OwnBatches;
    QueriedAreOwn(page, request);
  }

  lemma {:induction false} ViewAscends(request: Request, page: PageQuery)
    requires SoundAt(page, request.streamId)
    ensures Ascending(ViewOf(request, page))
  {
    hide AllRows, OwnBatches, Sound, Ordered, Ascending;
    var inRange := Between(RangeStart(page.nowMs, request.timeRangeMs), RangeEnd(page.nowMs) + 1);
    ViewIs(request, page);
    SoundSelection(page.files, OwnBatches(page, request.streamId), inRange);
    RowsOfSoundAscend(page.files, Filter(OwnBatches(page, request.streamId), inRange));
  }

  lemma {:induction false} GrownFrom(
      view: seq<QueryRow>, all: seq<QueryRow>, left: seq<QueryRow>, since: seq<QueryRow>, more: seq<QueryRow>)
    requires view == left + since + more && IsSuffix(left, all)
    requires forall seen <- all, row <- since + more :: seen.seqNo < row.seqNo
    ensures |left| <= |all| && Grown(view, all, |all| - |left|)
  {
    assert view[|left|..] == since + more;
  }

  // ----- Such pages follow the cursor -----

  /** How many of the rows the first page could see are out of range at `nowMs`. */
  function Gone(request: Request, first: PageQuery, nowMs: nat): nat {
    var all, left := |ViewOf(request, first)|, |StillInRange(request, first, nowMs)|;
    if left <= all then all - left else 0
  }

  function StepsOf(request: Request, first: PageQuery, pages: seq<PageQuery>): (steps: seq<PageStep>)
    ensures |steps| == |pages|
  {
    if pages == [] then []
    else
      var page := pages[0];
      [PageStep(
        ViewOf(request, page), Gone(request, first, page.nowMs), page.expired, page.cancel, page.scanned,
        page.response)]
      + StepsOf(request, first, pages[1..])
  }

  lemma {:induction false} SameButCursor(request: Request, cursor: Option<nat>, page: PageQuery, engine: RegexEngine)
    ensures var current := request.(cursorSeq := cursor);
      && ViewOf(current, page) == ViewOf(request, page)
      && BuildMatcher(current, engine) == BuildMatcher(request, engine)
      && (PruneSafe(current) <==> PruneSafe(request))
  {
    hide AllRows, Filter;
  }

  /** Over batches whose summaries cover them, an answered page is a page of the rows its query could see. */
  lemma {:induction false} CoveredAnswerIsPage(
      request: Request, engine: RegexEngine, matcher: TextMatcher, page: PageQuery)
    requires Answered(request, engine, page)
    requires AllCovered(page.files, QueriedBatches(page.batches, request, page.nowMs))
    requires PruneSafe(request) && BuildMatcher(request, engine) == Ok(matcher)
    ensures IsPage(ViewOf(request, page), request, Rules(request, matcher, page.expired), page.scanned, page.response)
    ensures page.response.stopReason == Cancelled ==> exists p: nat :: PollsCancelled(page.cancel, p)
  {
    hide AllRows, Candidates, AllCovered, InScope, Stopped, Respond, BuildMatcher, PruneSafe, IsStale,
      QueriedBatches, Rules, PollsCancelled, Collected, AllStale;
    PruningLosesNothing(page.files, QueriedBatches(page.batches, request, page.nowMs), request);
    if page.response.stopReason == Cancelled {
      assert PollsCancelled(page.cancel, page.polls - 1);
    }
  }

  lemma {:induction false} AnsweredIsPage(
      request: Request, engine: RegexEngine, matcher: TextMatcher, page: PageQuery)
    requires Answered(request, engine, page) && SoundAt(page, request.streamId)
    requires PruneSafe(request) && BuildMatcher(request, engine) == Ok(matcher)
    ensures IsPage(ViewOf(request, page), request, Rules(request, matcher, page.expired), page.scanned, page.response)
    ensures page.response.stopReason == Cancelled ==> exists p: nat :: PollsCancelled(page.cancel, p)
  {
    hide Answered, BuildMatcher, PruneSafe, IsPage, LevelsCovered, Ordered, IsStale, SeqDescending, QueriedBatches,
      OwnBatches, PollsCancelled;
    QueriedAreOwn(page, request);
    CoveredAnswerIsPage(request, engine, matcher, page);
  }

  /** And the other way round: where nothing is stale, a page that is not cancelled is an answer. */
  lemma {:induction false} PageIsAnswer(
      request: Request, engine: RegexEngine, matcher: TextMatcher, page: PageQuery)
    requires page.cancel == None && page.stale == {} && page.polls == 1 && page.response.stopReason != Cancelled
    requires IsPage(ViewOf(request, page), request, Rules(request, matcher, page.expired), page.scanned, page.response)
    requires var queried := QueriedBatches(page.batches, request, page.nowMs);
      AllCovered(page.files, queried) && forall batch <- queried :: !IsStale(page.files, batch)
    requires PruneSafe(request) && BuildMatcher(request, engine) == Ok(matcher)
    ensures Answered(request, engine, page)
  {
    hide AllRows, Candidates, AllCovered, InScope, Stopped, Respond, BuildMatcher, PruneSafe, IsStale, Excluded,
      QueriedBatches, Rules;
    PruningLosesNothing(page.files, QueriedBatches(page.batches, request, page.nowMs), request);
  }

  /** Where nothing is stale no query cleans up. */
  lemma {:induction false} NothingStaleNothingGoes(request: Request, engine: RegexEngine, page: PageQuery)
    requires Answered(request, engine, page)
    requires forall batch <- QueriedBatches(page.batches, request, page.nowMs) :: !IsStale(page.files, batch)
    ensures page.stale == {} && Without(page.batches, page.stale) == page.batches
  {
    assert AllStale(page.files, QueriedBatches(page.batches, request, page.nowMs), page.stale);
    hide QueryOutcome, IsStale, QueriedBatches, Without;
    NoStaleNames(page.files, QueriedBatches(page.batches, request, page.nowMs), page.stale);
    WithoutNothing(page.batches);
  }

  lemma {:induction false} NoStaleNames(files: Files, batches: seq<MetadataRow>, names: set<string>)
    requires AllStale(files, batches, names) && forall batch <- batches :: !IsStale(files, batch)
    ensures names == {}
  {
    hide IsStale;
  }

  lemma {:induction false} SeesWithin(view: seq<QueryRow>, all: seq<QueryRow>, gone: nat, cursor: Option<nat>)
    requires Sees(view, all, gone, cursor)
    ensures gone <= |all|
  {
  }

  /** A continuation cursor is the number of a row the first page could see. */
  lemma {:induction false} CursorWasSeen(
      view: seq<QueryRow>, all: seq<QueryRow>, gone: nat, request: Request, rules: ScanRules,
      scanned: seq<QueryRow>, response: Response)
    requires IsPage(view, request, rules, scanned, response) && rules.limit > 0
    requires Sees(view, all, gone, request.cursorSeq) && Ascending(view) && response.nextCursorSeq.Some?
    ensures exists row <- all :: row.seqNo == response.nextCursorSeq.value
  {
    hide InScope, RanThrough, Verdict, Sees, Ascending, Respond;
    SeesWithin(view, all, gone, request.cursorSeq);
    PageOfKept(view, all, gone, request);
    var candidates := Filter(view, InScope(request));
    AscendingFilter(view, InScope(request));
    assert candidates == candidates[..|candidates| - |scanned|] + scanned;
    AscendingParts(candidates[..|candidates| - |scanned|], scanned);
    RespondedPage(rules, scanned, response.stopReason);
    FilterMember(all[gone..], InScope(request));
    assert scanned[0] in candidates && scanned[0] in all[gone..];
    assert scanned[0] in all && scanned[0].seqNo == response.nextCursorSeq.value;
  }

  lemma {:induction false} GrownIsSeen(view: seq<QueryRow>, all: seq<QueryRow>, gone: nat, cursor: nat)
    requires Grown(view, all, gone) && exists row <- all :: row.seqNo == cursor
    ensures Sees(view, all, gone, Some(cursor))
  {
  }

  lemma {:induction false} GoneLater(request: Request, first: PageQuery, nowMs: nat, laterMs: nat)
    requires first.nowMs <= nowMs <= laterMs && Ordered(OwnBatches(first, request.streamId))
    ensures |StillInRange(request, first, laterMs)| <= |StillInRange(request, first, nowMs)|
    ensures Gone(request, first, nowMs) <= Gone(request, first, laterMs)
  {
    hide AllRows, OwnBatches, Ordered, StillInRange, ViewOf;
    var own := OwnBatches(first, request.streamId);
    var startMs, laterStartMs := RangeStart(nowMs, request.timeRangeMs), RangeStart(laterMs, request.timeRangeMs);
    var endMs := RangeEnd(first.nowMs) + 1;
    StillInRangeIs(request, first, nowMs);
    StillInRangeIs(request, first, laterMs);
    RangeSplits(request, first, nowMs);
    RangeSplits(request, first, laterMs);
    if laterStartMs <= endMs {
      SplitRows(first.files, own, startMs, laterStartMs, endMs);
    } else {
      FilterNone(own, Between(laterStartMs, endMs));
      NoRows(first.files);
    }
  }

  /** What is known of the first of some pages. */
  lemma {:induction false} ThisPage(
      request: Request, cursor: Option<nat>, engine: RegexEngine, matcher: TextMatcher, first: PageQuery,
      pages: seq<PageQuery>, newer: nat)
    requires PagesOf(request.(cursorSeq := cursor), engine, pages)
    requires BuildMatcher(request, engine) == Ok(matcher) && PruneSafe(request)
    requires SoundAt(first, request.streamId) && Extends(first, pages[0], request.streamId, newer)
    ensures pages != []
    ensures var current := request.(cursorSeq := cursor);
      && Answered(current, engine, pages[0]) && SoundAt(pages[0], request.streamId)
      && IsPage(
           ViewOf(request, pages[0]), current, Rules(current, matcher, pages[0].expired), pages[0].scanned,
           pages[0].response)
    ensures pages[0].response.stopReason == Cancelled ==> exists p: nat :: PollsCancelled(pages[0].cancel, p)
    ensures Ascending(ViewOf(request, pages[0]))
    ensures Grown(ViewOf(request, pages[0]), ViewOf(request, first), Gone(request, first, pages[0].nowMs))
  {
    hide Answered, Sound, Ordered, OwnBatches, BuildMatcher, PruneSafe, IsPage, Ascending, Grown, ViewOf, SameRows, StillInRange;
    SameButCursor(request, cursor, pages[0], engine);
    AnsweredIsPage(request.(cursorSeq := cursor), engine, matcher, pages[0]);
    PageGrown(request, first, pages[0], newer);
  }

  lemma {:induction false} NextPage(
      request: Request, cursor: Option<nat>, engine: RegexEngine, matcher: TextMatcher, first: PageQuery,
      pages: seq<PageQuery>, newer: nat)
    returns (later: nat)
    requires PagesOf(request.(cursorSeq := cursor), engine, pages) && |pages| > 1
    requires BuildMatcher(request, engine) == Ok(matcher) && PruneSafe(request)
    requires SoundAt(first, request.streamId) && Extends(first, pages[0], request.streamId, newer)
    requires Sees(ViewOf(request, pages[0]), ViewOf(request, first), Gone(request, first, pages[0].nowMs), cursor)
    ensures var next := pages[0].response.nextCursorSeq;
      && next.Some? && PagesOf(request.(cursorSeq := next), engine, pages[1..])
      && Extends(first, pages[1], request.streamId, later)
      && Gone(request, first, pages[0].nowMs) <= Gone(request, first, pages[1].nowMs)
      && Sees(ViewOf(request, pages[1]), ViewOf(request, first), Gone(request, first, pages[1].nowMs), next)
  {
    hide Answered, Sound, Ordered, OwnBatches, BuildMatcher, PruneSafe, IsPage, Ascending, Grown, ViewOf, SameRows, StillInRange, Sees, Gone, BatchRows;
    var current, response := request.(cursorSeq := cursor), pages[0].response;
    ThisPage(request, cursor, engine, matcher, first, pages, newer);
    later := ExtendsOn(first, pages[0], pages[1], current, engine, newer);
    GoneLater(request, first, pages[0].nowMs, pages[1].nowMs);
    CursorWasSeen(
      ViewOf(request, pages[0]), ViewOf(request, first), Gone(request, first, pages[0].nowMs), current,
      Rules(current, matcher, pages[0].expired), pages[0].scanned, response);
    assert NextRequest(current, response) == request.(cursorSeq := response.nextCursorSeq);
    ThisPage(request, response.nextCursorSeq, engine, matcher, first, pages[1..], later);
    GrownIsSeen(
      ViewOf(request, pages[1]), ViewOf(request, first), Gone(request, first, pages[1].nowMs),
      response.nextCursorSeq.value);
  }

  lemma {:induction false} StepsAre(request: Request, first: PageQuery, pages: seq<PageQuery>)
    requires pages != []
    ensures var steps, page := StepsOf(request, first, pages), pages[0];
      && steps[1..] == StepsOf(request, first, pages[1..])
      && steps[0].view == ViewOf(request, page) && steps[0].gone == Gone(request, first, page.nowMs)
      && steps[0].expired == page.expired && steps[0].cancel == page.cancel && steps[0].scanned == page.scanned
      && steps[0].response == page.response
  {
    hide ViewOf, Gone;
  }

  /** A page and the pages after it follow the cursor. */
  lemma {:induction false} FollowsOn(
      all: seq<QueryRow>, gone: nat, request: Request, matcher: TextMatcher, steps: seq<PageStep>)
    requires steps != [] && gone <= steps[0].gone
    requires var step := steps[0];
      && Sees(step.view, all, step.gone, request.cursorSeq)
      && IsPage(step.view, request, Rules(request, matcher, step.expired), step.scanned, step.response)
      && CancelledByPoll(step) && Ascending(step.view)
    requires |steps| > 1 ==>
      && steps[0].response.nextCursorSeq.Some? && ViewsAscend(steps[1..])
      && FollowsCursor(all, steps[0].gone, NextRequest(request, steps[0].response), matcher, steps[1..])
    ensures FollowsCursor(all, gone, request, matcher, steps) && ViewsAscend(steps)
  {
    hide Sees, IsPage, CancelledByPoll, Ascending;
    assert steps == [steps[0]] + steps[1..];
  }

  lemma {:induction false} PagesFollowCursor(
      request: Request, cursor: Option<nat>, engine: RegexEngine, matcher: TextMatcher, first: PageQuery,
      pages: seq<PageQuery>, newer: nat, gone: nat)
    requires PagesOf(request.(cursorSeq := cursor), engine, pages)
    requires BuildMatcher(request, engine) == Ok(matcher) && PruneSafe(request)
    requires SoundAt(first, request.streamId) && Extends(first, pages[0], request.streamId, newer)
    requires gone <= Gone(request, first, pages[0].nowMs)
    requires Sees(ViewOf(request, pages[0]), ViewOf(request, first), Gone(request, first, pages[0].nowMs), cursor)
    ensures var steps := StepsOf(request, first, pages);
      && FollowsCursor(ViewOf(request, first), gone, request.(cursorSeq := cursor), matcher, steps)
      && ViewsAscend(steps)
    decreases |pages|
  {
    hide *;
    var all := ViewOf(request, first);
    ThisPage(request, cursor, engine, matcher, first, pages, newer);
    StepsAre(request, first, pages);
    var steps := StepsOf(request, first, pages);
    assert CancelledByPoll(steps[0]) by { ByPoll(steps[0]); }
    if |pages| > 1 {
      var later := NextPage(request, cursor, engine, matcher, first, pages, newer);
      var next := pages[0].response.nextCursorSeq;
      assert pages[1..][0] == pages[1];
      PagesFollowCursor(
        request, next, engine, matcher, first, pages[1..], later, Gone(request, first, pages[0].nowMs));
      NextRequestIs(request.(cursorSeq := cursor), pages[0].response);
    }
    FollowsOn(all, gone, request.(cursorSeq := cursor), matcher, steps);
  }

  lemma {:induction false} ByPoll(step: PageStep)
    requires step.response.stopReason == Cancelled ==> exists p: nat :: PollsCancelled(step.cancel, p)
    ensures CancelledByPoll(step)
  {
  }

  // ----- All pages -----

  function RowsByPage(pages: seq<PageQuery>): seq<seq<QueryRow>> {
    if pages == [] then [] else [pages[0].response.rows] + RowsByPage(pages[1..])
  }

  lemma {:induction false} StepRows(request: Request, first: PageQuery, pages: seq<PageQuery>)
    ensures var steps := StepsOf(request, first, pages);
      && RowsOf(steps) == RowsByPage(pages)
      && forall i | 0 <= i < |pages| ::
           && steps[i].response == pages[i].response && steps[i].cancel == pages[i].cancel
           && steps[i].gone == Gone(request, first, pages[i].nowMs)
  {
    hide ViewOf, Gone;
    if pages != [] {
      StepRows(request, first, pages[1..]);
      StepsAre(request, first, pages);
    }
  }

  lemma {:induction false} FirstExtends(request: Request, page: PageQuery)
    requires SoundAt(page, request.streamId)
    ensures Extends(page, page, request.streamId, 0)
    ensures StillInRange(request, page, page.nowMs) == ViewOf(request, page)
    ensures Gone(request, page, page.nowMs) == 0
    ensures Sees(ViewOf(request, page), ViewOf(request, page), 0, request.cursorSeq)
  {
    hide AllRows;
    var own := OwnBatches(page, request.streamId);
    assert own[0..] == own;
    var queried := QueriedBatches(page.batches, request, page.nowMs);
    FilterMember(page.batches, Selects(
      request.streamId, RangeStart(page.nowMs, request.timeRangeMs), RangeEnd(page.nowMs)));
    FilterAll(queried, Since(RangeStart(page.nowMs, request.timeRangeMs)));
  }

  /**
    The pages of any request with safe filters, with whatever limit, budget and deadlines, while stale
    files are cleaned up and later batches are written: they hold, once and in order, matching rows
    among those the first page could see, the newest of them first. Once the cursor is absent they
    hold all that are still in the time range, so all of them if no batch dropped out. Every page but the last takes a row in scope.
    */
  lemma {:induction false} PagesReturnWhatTheFirstCouldSee(
      request: Request, engine: RegexEngine, matcher: TextMatcher, pages: seq<PageQuery>)
    requires PagesOf(request, engine, pages) && NoPageCancelled(pages)
    requires BuildMatcher(request, engine) == Ok(matcher) && PruneSafe(request)
    ensures var first, last := pages[0], pages[|pages| - 1];
      var all, joined := ViewOf(request, first), JoinPages(RowsByPage(pages));
      && IsSuffix(joined, Expected(all, request, matcher))
      && (last.response.nextCursorSeq.None? ==>
            IsSuffix(Expected(StillInRange(request, first, last.nowMs), request, matcher), joined))
      && (last.response.nextCursorSeq.None? && NothingDroppedOut(request, first, last.nowMs) ==>
            joined == Expected(all, request, matcher))
      && |pages| <= |Filter(all, InScope(request))| + if last.response.nextCursorSeq.None? then 1 else 0
  {
    hide *;
    FirstAndLast(request, engine, pages);
    var first, all := pages[0], ViewOf(request, pages[0]);
    assert request.(cursorSeq := request.cursorSeq) == request;
    FirstExtends(request, first);
    PagesFollowCursor(request, request.cursorSeq, engine, matcher, first, pages, 0, 0);
    var steps := StepsOf(request, first, pages);
    StepRows(request, first, pages);
    assert NeverCancelled(steps) by { NoStepCancelled(pages, steps); }
    PagesAreComplete(all, 0, request, matcher, steps);
    assert all[0..] == all;
    LastStep(request, first, pages);
    if NothingDroppedOut(request, first, pages[|pages| - 1].nowMs) {
      AllStillInRange(request, first, pages[|pages| - 1].nowMs);
      if pages[|pages| - 1].response.nextCursorSeq.None? {
        SuffixBothWays(JoinPages(RowsByPage(pages)), Expected(all, request, matcher));
      }
    }
  }

  lemma {:induction false} AllStillInRange(request: Request, first: PageQuery, nowMs: nat)
    requires NothingDroppedOut(request, first, nowMs)
    ensures StillInRange(request, first, nowMs) == ViewOf(request, first)
  {
    hide AllRows, QueriedBatches;
    FilterAll(
      QueriedBatches(first.batches, request, first.nowMs), Since(RangeStart(nowMs, request.timeRangeMs)));
  }

  lemma {:induction false} FirstAndLast(request: Request, engine: RegexEngine, pages: seq<PageQuery>)
    requires PagesOf(request, engine, pages)
    ensures pages != [] && SoundAt(pages[0], request.streamId)
    ensures pages[0].nowMs <= pages[|pages| - 1].nowMs
    decreases |pages|
  {
    hide Answered, SoundAt;
    if |pages| > 1 {
      FirstAndLast(NextRequest(request, pages[0].response), engine, pages[1..]);
    }
  }

  lemma {:induction false} NoStepCancelled(pages: seq<PageQuery>, steps: seq<PageStep>)
    requires NoPageCancelled(pages) && |steps| == |pages|
    requires forall i | 0 <= i < |pages| :: steps[i].cancel == pages[i].cancel
    ensures NeverCancelled(steps)
  {
    hide PollsCancelled;
    forall step <- steps, p: nat ensures !PollsCancelled(step.cancel, p) {
      var i :| 0 <= i < |steps| && steps[i] == step;
      assert pages[i] in pages;
    }
  }

  lemma {:induction false} LastStep(request: Request, first: PageQuery, pages: seq<PageQuery>)
    requires pages != [] && SoundAt(first, request.streamId) && first.nowMs <= pages[|pages| - 1].nowMs
    ensures var steps, last := StepsOf(request, first, pages), pages[|pages| - 1];
      && (Finished(steps) <==> last.response.nextCursorSeq.None?)
      && LastGone(steps) <= |ViewOf(request, first)|
      && ViewOf(request, first)[LastGone(steps)..] == StillInRange(request, first, last.nowMs)
  {
    hide ViewOf, StillInRange, Sound, Ordered, OwnBatches;
    StepRows(request, first, pages);
    RangeSplits(request, first, pages[|pages| - 1].nowMs);
  }

  // ----- In one page, or in several -----

  ghost predicate NeverExpired(pages: seq<PageQuery>) {
    forall page <- pages, n: nat :: !page.expired(n)
  }

  lemma {:induction false} AnswerSize(request: Request, engine: RegexEngine, page: PageQuery)
    requires Answered(request, engine, page)
    ensures |page.response.rows| <= NormalizeLimit(request.limit)
    ensures page.response.nextCursorSeq.Some? && request.scanBudgetLines.None? && (forall n: nat :: !page.expired(n)) ==>
      |page.response.rows| == NormalizeLimit(request.limit)
  {
    hide Candidates, AllStale, Collected, Polled, QueriedBatches, Filter, SortBySeq, RanThrough;
    assert BuildMatcher(request, engine).Ok?;
    hide BuildMatcher;
    var rules, reason := Rules(request, BuildMatcher(request, engine).value, page.expired), page.response.stopReason;
    var scanned := page.scanned;
    PageSize(rules, scanned, reason);
    if reason != Complete && reason != Cancelled {
      assert Verdict(rules, scanned) == reason;
    }
    NoCursorAtEnd(rules, scanned, reason);
  }

  lemma {:induction false} NoCursorAtEnd(rules: ScanRules, scanned: seq<QueryRow>, reason: StopReason)
    requires Paused(rules, scanned, reason) && rules.limit > 0
    ensures reason == Complete || reason == Cancelled ==> Respond(rules, scanned, reason).nextCursorSeq == None
  {
    hide Filter, SortBySeq, RanThrough, Verdict;
    PageSize(rules, scanned, reason);
  }

  /**
    Without a scan budget and without a deadline that expires, the rows of a request come in one page
    exactly if they are within its limit.
    */
  lemma {:induction false} OnePageWithinLimit(request: Request, engine: RegexEngine, pages: seq<PageQuery>)
    requires PagesOf(request, engine, pages) && request.scanBudgetLines.None? && NeverExpired(pages)
    ensures OneHoldsRows(RowsByPage(pages)) <==> |JoinPages(RowsByPage(pages))| <= NormalizeLimit(request.limit)
  {
    hide Answered, SoundAt, Succeeds;
    var page, rows := pages[0], RowsByPage(pages);
    assert page in pages;
    AnswerSize(request, engine, page);
    OneHoldsRowsHere(rows);
    assert rows[1..] == RowsByPage(pages[1..]);
    assert |pages| == 1 ==> rows[1..] == [];
  }
}
