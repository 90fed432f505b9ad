/** Paging through a stream that a sink goes on writing: its pages are pages of a sound store. */
module DeviceLogLive {
  import opened Sequences
  import opened Utf8
  import opened DeviceLogLine
  import opened DeviceLogSegment
  import opened DeviceLogMetadata
  import opened DeviceLogQuery
  import opened DeviceLogPruning
  import opened DeviceLogPaging
  import opened DeviceLogStoreView
  import opened DeviceLogPages
  import opened DeviceLogExport
  import opened DeviceLogWriter
  import opened DeviceLogClock

  /** The page's query found the store as the sink left it. */
  ghost predicate FindsSink(page: PageQuery, sink: Sink) {
    && page.batches == sink.table
    && SegmentName(sink.streamId) in page.files && page.files[SegmentName(sink.streamId)] == sink.file
  }

  /**
    Pages in turn, over the store of a sink: each query cleans up, and then the sink, and those of
    other streams, write on until the next.
    */
  ghost predicate LivePages(
      sink: Sink, request: Request, engine: RegexEngine, pages: seq<PageQuery>, writes: seq<seq<SinkEvent>>)
    decreases |pages|
  {
    && pages != [] && |writes| == |pages| - 1
    && var page := pages[0];
       && FindsSink(page, sink) && Answered(request, engine, page)
       && (|pages| > 1 ==>
             && page.response.nextCursorSeq.Some? && page.nowMs <= pages[1].nowMs
             && LivePages(
                  Run(sink.(table := Without(sink.table, page.stale)), writes[0]),
                  NextRequest(request, page.response), engine, pages[1..], writes[1..]))
  }

  ghost predicate NoFeedsWritten(events: seq<SinkEvent>) {
    forall event <- events :: event.Own? ==> NoLineFeeds(event.job.lines)
  }

  // ----- What a run adds -----

  /** Later rows stand before those there were. */
  lemma {:induction false} RunAdds(sink: Sink, stored: seq<seq<string>>, lastMs: nat, events: seq<SinkEvent>)
    requires SinkInvariant(sink, stored, lastMs) && ClockAdvances(events, lastMs)
    ensures Run(sink, events).streamId == sink.streamId
    ensures IsSuffix(Filter(sink.table, OfStream(sink.streamId)), Filter(Run(sink, events).table, OfStream(sink.streamId)))
    ensures IsSuffix(stored, StoredBy(events, stored))
    decreases |events|
  {
    hide SinkInvariant, IsSuffix;
    StartOfRun(sink, stored);
    if events != [] {
      StepAdds(sink, stored, lastMs, events[0]);
      var next := if IsStored(events[0]) then [events[0].job.lines] + stored else stored;
      var later := if events[0].Own? then events[0].job.nowMs else lastMs;
      RunAdds(Step(sink, events[0]), next, later, events[1..]);
      SuffixTransitive(
        Filter(sink.table, OfStream(sink.streamId)), Filter(Step(sink, events[0]).table, OfStream(sink.streamId)),
        Filter(Run(sink, events).table, OfStream(sink.streamId)));
      SuffixTransitive(stored, next, StoredBy(events, stored));
    }
  }

  lemma {:induction false} StartOfRun(sink: Sink, stored: seq<seq<string>>)
    ensures IsSuffix(stored, stored)
    ensures IsSuffix(Filter(sink.table, OfStream(sink.streamId)), Filter(sink.table, OfStream(sink.streamId)))
  {
  }

  lemma {:induction false} StepAdds(sink: Sink, stored: seq<seq<string>>, lastMs: nat, event: SinkEvent)
    requires SinkInvariant(sink, stored, lastMs) && (event.Own? ==> lastMs <= event.job.nowMs)
    ensures Step(sink, event).streamId == sink.streamId
    ensures SinkInvariant(
      Step(sink, event), if IsStored(event) then [event.job.lines] + stored else stored,
      if event.Own? then event.job.nowMs else lastMs)
    ensures IsSuffix(Filter(sink.table, OfStream(sink.streamId)), Filter(Step(sink, event).table, OfStream(sink.streamId)))
    ensures IsSuffix(stored, if IsStored(event) then [event.job.lines] + stored else stored)
  {
    hide InsertOrdered, BatchBytes, LevelSummary, Indexes, Ordered, Filter;
    var ofStream := OfStream(sink.streamId);
    match event {
      case Own(job) =>
        OwnStepKeeps(sink, stored, lastMs, job);
        FilterInsert(sink.table, BatchRow(sink, job), ofStream);
        InsertNewest(Filter(sink.table, ofStream), BatchRow(sink, job));
      case Foreign(row) =>
        if row.streamId != sink.streamId {
          ForeignStepKeeps(sink, stored, lastMs, row);
          FilterInsert(sink.table, row, ofStream);
        }
    }
  }

  lemma {:induction false} ClockOn(a: seq<SinkEvent>, b: seq<SinkEvent>, since: nat)
    requires ClockAdvances(a + b, since)
    ensures ClockAdvances(a, since) && ClockAdvances(b, LastMs(a, since))
    decreases |a|
  {
    if a == [] {
      assert a + b == b;
    } else {
      assert (a + b)[1..] == a[1..] + b && (a + b)[0] == a[0];
      ClockOn(a[1..], b, if a[0].Own? then a[0].job.nowMs else since);
    }
  }

  lemma {:induction false} FeedsOn(events: seq<SinkEvent>, stored: seq<seq<string>>)
    requires NoFeedsWritten(events) && NoLineFeedIn(stored)
    ensures NoLineFeedIn(StoredBy(events, stored))
  {
    hide NoLineFeeds;
    if events != [] {
      assert events[0] in events && forall event <- events[1..] :: event in events;
      FeedsOn(events[1..], if IsStored(events[0]) then [events[0].job.lines] + stored else stored);
    }
  }

  // ----- From page to page -----

  /** Nothing the sink wrote is stale, so no page cleans up. */
  lemma {:induction false} NothingToClean(
      sink: Sink, stored: seq<seq<string>>, lastMs: nat, request: Request, engine: RegexEngine, page: PageQuery)
    requires SinkInvariant(sink, stored, lastMs) && NoLineFeedIn(stored) && request.streamId == sink.streamId
    requires FindsSink(page, sink) && Answered(request, engine, page)
    ensures SoundAt(page, request.streamId) && page.stale == {}
    ensures sink.(table := Without(sink.table, page.stale)) == sink
    ensures Without(OwnBatches(page, request.streamId), page.stale) == OwnBatches(page, request.streamId)
  {
    assert Ordered(sink.table);
    hide SinkInvariant, Sound, Ordered, QueryOutcome, Without, IsStale, NoLineFeedIn, QueriedBatches;
    WrittenStoreIsSound(page.files, sink, stored, lastMs);
    QueriedAreOwn(page, request);
    FilterKeepsOrder(sink.table, OfStream(sink.streamId));
    NothingStaleNothingGoes(request, engine, page);
    WithoutNothing(OwnBatches(page, request.streamId));
  }

  /** A batch reads as its lines, in whichever later file it stands. */
  lemma {:induction false} ReadsAlike(
      files: Files, file: seq<Byte>, later: Files, laterFile: seq<Byte>, streamId: string, row: MetadataRow, lines: seq<string>)
    requires Backs(file, streamId, row, lines) && Backs(laterFile, streamId, row, lines) && NoLineFeeds(lines)
    requires SegmentName(streamId) in files && files[SegmentName(streamId)] == file
    requires SegmentName(streamId) in later && later[SegmentName(streamId)] == laterFile
    ensures BatchRows(later, row) == BatchRows(files, row)
  {
    hide Backs, BatchLines, ParseRows, NoLineFeeds;
    BackedBatchReads(files, file, streamId, row, lines);
    BackedBatchReads(later, laterFile, streamId, row, lines);
  }

  lemma {:induction false} RowsReadAlike(
      files: Files, file: seq<Byte>, later: Files, laterFile: seq<Byte>, streamId: string,
      rows: seq<MetadataRow>, stored: seq<seq<string>>, laterRows: seq<MetadataRow>, laterStored: seq<seq<string>>)
    requires Indexes(file, streamId, rows, stored) && Indexes(laterFile, streamId, laterRows, laterStored)
    requires IsSuffix(rows, laterRows) && IsSuffix(stored, laterStored) && NoLineFeedIn(stored)
    requires SegmentName(streamId) in files && files[SegmentName(streamId)] == file
    requires SegmentName(streamId) in later && later[SegmentName(streamId)] == laterFile
    ensures forall row <- rows :: BatchRows(later, row) == BatchRows(files, row)
  {
    hide Backs, BatchRows, NoLineFeeds;
    forall i | 0 <= i < |rows| ensures BatchRows(later, rows[i]) == BatchRows(files, rows[i]) {
      var j := |laterRows| - |rows| + i;
      assert laterRows[j] == rows[i] && laterStored[j] == stored[i] && stored[i] in stored;
      ReadsAlike(files, file, later, laterFile, streamId, rows[i], stored[i]);
    }
  }

  lemma {:induction false} WrittenBetween(
      sink: Sink, stored: seq<seq<string>>, lastMs: nat, events: seq<SinkEvent>, request: Request,
      engine: RegexEngine, page: PageQuery, next: PageQuery)
    requires SinkInvariant(sink, stored, lastMs) && NoLineFeedIn(stored) && request.streamId == sink.streamId
    requires ClockAdvances(events, lastMs)
    requires FindsSink(page, sink) && Answered(request, engine, page)
    requires FindsSink(next, Run(sink, events)) && page.nowMs <= next.nowMs
    ensures Succeeds(page, next, request.streamId)
  {
    hide Answered, SoundAt, Indexes, Ordered, Filter, IsSuffix, Run, ClockAdvances, StoredBy, Without, BatchRows, NoLineFeedIn;
    NothingToClean(sink, stored, lastMs, request, engine, page);
    RunAdds(sink, stored, lastMs, events);
    EveryRunIndexesItsBatches(sink, stored, lastMs, events);
    RowsReadAlike(
      page.files, sink.file, next.files, Run(sink, events).file, sink.streamId,
      OwnBatches(page, sink.streamId), stored, OwnBatches(next, sink.streamId), StoredBy(events, stored));
  }

  /** Whatever is written between them, pages over the store of a sink are pages of a sound store. */
  lemma {:induction false} LivePagesArePages(
      sink: Sink, stored: seq<seq<string>>, lastMs: nat, request: Request, engine: RegexEngine,
      pages: seq<PageQuery>, writes: seq<seq<SinkEvent>>)
    requires SinkInvariant(sink, stored, lastMs) && NoLineFeedIn(stored) && request.streamId == sink.streamId
    requires ClockAdvances(Flatten(writes), lastMs) && NoFeedsWritten(Flatten(writes))
    requires LivePages(sink, request, engine, pages, writes)
    ensures PagesOf(request, engine, pages)
    decreases |pages|
  {
    hide SinkInvariant, Answered, SoundAt, Succeeds, ClockAdvances, NoLineFeedIn, NoFeedsWritten, FindsSink, Run, Without, StoredBy;
    var page := pages[0];
    NothingToClean(sink, stored, lastMs, request, engine, page);
    if |pages| > 1 {
      var events, rest := writes[0], writes[1..];
      ClockOn(events, Flatten(rest), lastMs);
      FeedsSplit(events, Flatten(rest));
      WrittenBetween(sink, stored, lastMs, events, request, engine, page, pages[1]);
      FeedsOn(events, stored);
      EveryRunIndexesItsBatches(sink, stored, lastMs, events);
      LivePagesArePages(
        Run(sink, events), StoredBy(events, stored), LastMs(events, lastMs), NextRequest(request, page.response),
        engine, pages[1..], rest);
    }
  }

  lemma {:induction false} FeedsSplit(a: seq<SinkEvent>, b: seq<SinkEvent>)
    requires NoFeedsWritten(a + b)
    ensures NoFeedsWritten(a) && NoFeedsWritten(b)
  {
    hide NoLineFeeds;
    assert forall event <- a :: event in a + b;
    assert forall event <- b :: event in a + b;
  }

  // ----- What was written comes out -----

  /** Nothing is filtered out and no page was asked for before. */
  predicate AsksForAll(request: Request) {
    && Trim(request.query) == "" && request.levels == [] && request.cursorSeq.None?
    && Trim(request.pid) == "" && Trim(request.process) == "" && Trim(request.domain) == "" && Trim(request.tag) == ""
  }

  lemma {:induction false} AllAreExpected(all: seq<QueryRow>, request: Request, engine: RegexEngine)
    requires AsksForAll(request)
    ensures BuildMatcher(request, engine) == Ok(MatchAll) && PruneSafe(request)
    ensures Expected(all, request, MatchAll) == all
  {
    hide Trim;
    FilterAll(all, InScope(request));
    FilterAll(all, MatchesText(MatchAll));
  }

  /** A page asked for after the last write, with a range back to the epoch, could see every batch. */
  lemma {:induction false} AllAreViewed(
      sink: Sink, stored: seq<seq<string>>, lastMs: nat, request: Request, page: PageQuery)
    requires SinkInvariant(sink, stored, lastMs) && FindsSink(page, sink) && request.streamId == sink.streamId
    requires lastMs <= page.nowMs <= request.timeRangeMs && lastMs <= SQLITE_MAX_TIME_MS
    ensures ViewOf(request, page) == AllRows(page.files, Filter(sink.table, OfStream(sink.streamId)))
  {
    hide Indexes, Ordered, AllRows;
    ViewIs(request, page);
    FilterAll(
      OwnBatches(page, request.streamId),
      Between(RangeStart(page.nowMs, request.timeRangeMs), RangeEnd(page.nowMs) + 1));
  }

  /** The pages of an unfiltered export of a live stream that succeeded, and what the first could see. */
  ghost predicate ExportsAll(
      sink: Sink, stored: seq<seq<string>>, lastMs: nat, request: Request, engine: RegexEngine,
      pages: seq<PageQuery>, writes: seq<seq<SinkEvent>>, source: PageSource, capacity: Option<nat>, text: string)
  {
    && SinkInvariant(sink, stored, lastMs) && NoLineFeedIn(stored) && request.streamId == sink.streamId
    && ClockAdvances(Flatten(writes), lastMs) && NoFeedsWritten(Flatten(writes))
    && LivePages(sink, request, engine, pages, writes) && (forall page <- pages :: page.cancel.None?)
    && AsksForAll(request) && lastMs <= SQLITE_MAX_TIME_MS
    && lastMs <= pages[0].nowMs && pages[|pages| - 1].nowMs <= request.timeRangeMs
    && (forall row <- Filter(sink.table, OfStream(sink.streamId)) :: row.segmentBytes <= MAX_SEGMENT_READ_BYTES)
    && ExportOutcome(source, request, capacity, Responses(pages), Ok(text))
  }

  /**
    An unfiltered export of a live stream, if it succeeds, writes each line persisted before it began
    once, whatever is written meanwhile: page after page, the newest page first, each page in order.
    Put together from the last page to the first, the pages are the log; as written, their rows are
    in that order exactly if at most one page holds rows.
    */
  lemma {:induction false} ExportIsTheLog(
      sink: Sink, stored: seq<seq<string>>, lastMs: nat, request: Request, engine: RegexEngine,
      pages: seq<PageQuery>, writes: seq<seq<SinkEvent>>, source: PageSource, capacity: Option<nat>, text: string)
    requires ExportsAll(sink, stored, lastMs, request, engine, pages, writes, source, capacity, text)
    ensures var rows := RowsByPage(pages);
      && text == RowsText(Flatten(rows))
      && RawLines(JoinPages(rows)) == StoredLines(OldestFirst(stored))
      && Ascending(JoinPages(rows))
      && (Flatten(rows) == JoinPages(rows) <==> OneHoldsRows(rows))
  {
    var rows := Filter(sink.table, OfStream(sink.streamId));
    assert Indexes(sink.file, sink.streamId, rows, stored);
    assert FindsSink(pages[0], sink);
    hide *;
    ExportedPages(sink, stored, lastMs, request, engine, pages, writes, source, capacity, text);
    var first := pages[0];
    AllAreExpected(ViewOf(request, first), request, engine);
    ExportOfStore(source, request, capacity, Ok(text), engine, MatchAll, pages);
    RangeFromEpoch(request, first, pages[|pages| - 1].nowMs);
    AllAreViewed(sink, stored, lastMs, request, first);
    FoundFile(first, sink);
    RowsAreThePersistedLines(first.files, sink.file, sink.streamId, rows, stored);
    ViewAscends(request, first);
    InOrderExactly(RowsByPage(pages));
    ResponsesAre(pages);
    TextAsWritten(Responses(pages));
  }

  lemma {:induction false} ExportedPages(
      sink: Sink, stored: seq<seq<string>>, lastMs: nat, request: Request, engine: RegexEngine,
      pages: seq<PageQuery>, writes: seq<seq<SinkEvent>>, source: PageSource, capacity: Option<nat>, text: string)
    requires ExportsAll(sink, stored, lastMs, request, engine, pages, writes, source, capacity, text)
    ensures PagesOf(request, engine, pages) && pages != [] && SoundAt(pages[0], request.streamId)
    ensures pages[0].nowMs <= pages[|pages| - 1].nowMs
  {
    hide SinkInvariant, PagesOf, SoundAt, LivePages, ClockAdvances, NoFeedsWritten, NoLineFeedIn;
    LivePagesArePages(sink, stored, lastMs, request, engine, pages, writes);
    FirstAndLast(request, engine, pages);
  }

  /**
    Without a scan budget and without a deadline that expires, the export comes out in the order of
    the log exactly if the log has no more lines than a page may hold.
    */
  lemma {:induction false} ExportInOrderExactly(
      sink: Sink, stored: seq<seq<string>>, lastMs: nat, request: Request, engine: RegexEngine,
      pages: seq<PageQuery>, writes: seq<seq<SinkEvent>>, source: PageSource, capacity: Option<nat>, text: string)
    requires ExportsAll(sink, stored, lastMs, request, engine, pages, writes, source, capacity, text)
    requires request.scanBudgetLines.None? && NeverExpired(pages)
    ensures Flatten(RowsByPage(pages)) == JoinPages(RowsByPage(pages))
       <==> |OldestFirst(stored)| <= NormalizeLimit(request.limit)
  {
    hide *;
    ExportIsTheLog(sink, stored, lastMs, request, engine, pages, writes, source, capacity, text);
    ExportedPages(sink, stored, lastMs, request, engine, pages, writes, source, capacity, text);
    OnePageWithinLimit(request, engine, pages);
    RawLength(JoinPages(RowsByPage(pages)));
    StoredLength(OldestFirst(stored));
  }

  lemma {:induction false} RawLength(rows: seq<QueryRow>)
    ensures |RawLines(rows)| == |rows|
  {
    if rows != [] {
      RawLength(rows[1..]);
    }
  }

  lemma {:induction false} StoredLength(lines: seq<string>)
    ensures |StoredLines(lines)| == |lines|
  {
  }

  lemma {:induction false} FoundFile(page: PageQuery, sink: Sink)
    requires FindsSink(page, sink)
    ensures SegmentName(sink.streamId) in page.files && page.files[SegmentName(sink.streamId)] == sink.file
  {
  }

  lemma {:induction false} RangeFromEpoch(request: Request, first: PageQuery, nowMs: nat)
    requires nowMs <= request.timeRangeMs
    ensures NothingDroppedOut(request, first, nowMs)
  {
  }

  // ----- Two lines, one row a page -----

  function TwoLines(): seq<SinkEvent> {
    [Own(WriteJob("d", ["one", "two"], 0, true, true, 0))]
  }

  lemma {:induction false} TwoLinesRun()
    ensures var sink := Run(Sink("s", [], 1, []), TwoLines());
      && Filter(sink.table, OfStream("s")) == sink.table && sink.streamId == "s"
      && (forall row <- sink.table :: row.segmentBytes <= MAX_SEGMENT_READ_BYTES)
    ensures StoredBy(TwoLines(), []) == [["one", "two"]] && NoLineFeedIn([["one", "two"]])
    ensures Storable(TwoLines()) && ClockAdvances(TwoLines(), 0) && LastMs(TwoLines(), 0) == 0
  {
    SmallLines();
    hide BatchBytes, LevelSummary, NoLineFeeds;
    var first, events := Sink("s", [], 1, []), TwoLines();
    assert events[1..] == [];
    var table := Step(first, events[0]).table;
    assert table == [BatchRow(first, events[0].job)];
    FilterAll(table, OfStream("s"));
  }

  lemma {:induction false} SmallLines()
    ensures NoLineFeeds(["one", "two"]) && |BatchBytes(["one", "two"])| <= MAX_SEGMENT_READ_BYTES
  {
    var lines := ["one", "two"];
    assert Written(lines[1..][1..]) == "" && |Written(lines[1..])| == 4 && |Written(lines)| == 8;
    EncodedLength(Written(lines));
  }

  /** The store of a sink that wrote both in one batch is sound and holds them in order. */
  lemma {:induction false} TwoLinesStored(files: Files)
    requires var sink := Run(Sink("s", [], 1, []), TwoLines());
      SegmentName("s") in files && files[SegmentName("s")] == sink.file
    ensures var table, request := Run(Sink("s", [], 1, []), TwoLines()).table, OneRowRequest("s", None);
      var all := View(files, table, request, SQLITE_MAX_TIME_MS);
      && Ordered(Filter(table, OfStream("s"))) && Sound(files, Filter(table, OfStream("s")))
      && Whole(files, QueriedBatches(table, request, SQLITE_MAX_TIME_MS))
      && Ascending(all) && RawLines(all) == StoredLines(["one", "two"])
  {
    hide *;
    var fresh0, events := Sink("s", [], 1, []), TwoLines();
    var sink := Run(fresh0, events);
    TwoLinesRun();
    FreshTable();
    FreshSink("s", [], []);
    EveryRunIndexesItsBatches(fresh0, [], 0, events);
    WrittenStoreIsSound(files, sink, [["one", "two"]], 0);
    var rows := RunTable("s", [], [], events, files);
    InsertedRows(rows);
    OneRowViewsAll(files, sink.table, "s", rows);
    RowsOfSoundAscend(files, sink.table);
    IndexedRows(sink, [["one", "two"]], 0);
    RowsAreThePersistedLines(files, sink.file, "s", sink.table, [["one", "two"]]);
    OnlyBatch(["one", "two"]);
  }

  lemma {:induction false} FreshTable()
    ensures Ordered([])
  {
  }

  lemma {:induction false} IndexedRows(sink: Sink, stored: seq<seq<string>>, lastMs: nat)
    requires SinkInvariant(sink, stored, lastMs)
    ensures Indexes(sink.file, sink.streamId, Filter(sink.table, OfStream(sink.streamId)), stored)
  {
  }

  lemma {:induction false} OnlyBatch(lines: seq<string>)
    ensures OldestFirst([lines]) == lines
  {
    assert [lines][1..] == [] && [] + lines == lines;
  }

  lemma {:induction false} RowsOneEach(pages: seq<PageQuery>)
    requires forall page <- pages :: |page.response.rows| <= 1
    ensures forall rows <- RowsByPage(pages) :: |rows| <= 1
  {
    if pages != [] {
      assert pages == [pages[0]] + pages[1..];
      RowsOneEach(pages[1..]);
    }
  }

  lemma {:induction false} TwoRows(all: seq<QueryRow>)
    requires Ascending(all) && RawLines(all) == StoredLines(["one", "two"])
    ensures |all| == 2 && Reverse(all) != all && RowsText(Reverse(all)) == "two\none\n"
  {
    RawLength(all);
    StoredLength(["one", "two"]);
    assert all == [all[0], all[1]] && all[1] in all[1..];
    assert RawLines(all)[0] == all[0].raw && RawLines(all)[1] == all[1].raw;
    assert ["one", "two"][1..] == ["two"];
    PairReversed(all[0], all[1]);
    PairText(all[1], all[0]);
  }

  lemma {:induction false} PairReversed(a: QueryRow, b: QueryRow)
    ensures Reverse([a, b]) == [b, a]
  {
    assert [a, b][1..] == [b] && [b][1..] == [];
    assert Reverse([b]) == [b];
  }

  lemma {:induction false} PairText(a: QueryRow, b: QueryRow)
    ensures RowsText([a, b]) == a.raw + "\n" + (b.raw + "\n")
  {
    assert [a, b][1..] == [b] && [b][1..] == [];
    assert RowsText([b]) == b.raw + "\n";
  }

  /** A run of queries over a sound store is pages of it, one more than there are rows at most. */
  lemma {:induction false} RunOfStore(
      files: Files, table: seq<MetadataRow>, request: Request, nowMs: nat, engine: RegexEngine, pages: seq<PageQuery>,
      all: seq<QueryRow>)
    requires QueryRun(files, table, request, nowMs, engine, pages) && all == View(files, table, request, nowMs)
    requires Ordered(Filter(table, OfStream(request.streamId))) && Sound(files, Filter(table, OfStream(request.streamId)))
    requires BuildMatcher(request, engine) == Ok(MatchAll) && PruneSafe(request)
    ensures PagesOf(request, engine, pages) && pages != [] && pages[|pages| - 1].response.nextCursorSeq.None?
    ensures |pages| <= |all| + 1
  {
    hide QuietPages, Sound, Ordered, AllRows, QueriedBatches, BuildMatcher, PruneSafe, InScope, NoPageCancelled;
    NoPages(request, engine, pages);
    QuietPagesArePages(request, engine, pages);
    PagesReturnWhatTheFirstCouldSee(request, engine, MatchAll, pages);
    assert pages[0] in pages;
    FilterShortens(all, InScope(request));
  }

  lemma {:induction false} NotTooMany()
    ensures 3 <= EXPORT_MAX_PAGES
  {
  }

  /** Its export, one row a page, succeeds with the second line before the first. */
  lemma {:induction false} TwoLinesComeOutReversed(files: Files, engine: RegexEngine)
    returns (pages: seq<PageQuery>)
    requires var sink := Run(Sink("s", [], 1, []), TwoLines());
      SegmentName("s") in files && files[SegmentName("s")] == sink.file
    ensures var table, request := Run(Sink("s", [], 1, []), TwoLines()).table, OneRowRequest("s", None);
      && QueryRun(files, table, request, SQLITE_MAX_TIME_MS, engine, pages)
      && ExportOutcome(SourceOf(Responses(pages)), request, None, Responses(pages), Ok("two\none\n"))
      && Flatten(RowsByPage(pages)) != JoinPages(RowsByPage(pages))
  {
    hide *;
    var table, request := Run(Sink("s", [], 1, []), TwoLines()).table, OneRowRequest("s", None);
    var all := View(files, table, request, SQLITE_MAX_TIME_MS);
    TwoLinesStored(files);
    pages := OneRowQueries(files, table, "s", SQLITE_MAX_TIME_MS, engine);
    var rows := RowsByPage(pages);
    RowsOneEach(pages);
    OneByOneIsReversed(rows);
    TwoRows(all);
    OneRowAsksForAll("s", None, all, engine);
    RunOfStore(files, table, request, SQLITE_MAX_TIME_MS, engine, pages, all);
    NotTooMany();
    PagesExport(request, engine, MatchAll, pages);
    ResponsesAre(pages);
    TextAsWritten(Responses(pages));
  }
}
