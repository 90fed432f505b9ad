/**
  Batches are visited by receive time, and pages continue by sequence number: paging is complete
  exactly when the clock did not step back between batches.
  */
module DeviceLogClock {
  import opened Sequences
  import opened Utf8
  import opened DeviceLogLine
  import opened DeviceLogSegment
  import opened DeviceLogMetadata
  import opened DeviceLogQuery
  import opened DeviceLogPruning
  import opened DeviceLogPaging
  import opened DeviceLogStoreView
  import opened DeviceLogPages
  import opened DeviceLogWriter

  // ----- Runs of queries over one store -----

  /** The rows a request selects, as its batches are visited. */
  function View(files: Files, table: seq<MetadataRow>, request: Request, nowMs: nat): seq<QueryRow> {
    AllRows(files, QueriedBatches(table, request, nowMs))
  }

  /** Queries of one store at one time, one after the other until the cursor is absent, none superseded. */
  ghost predicate QueryRun(
      files: Files, table: seq<MetadataRow>, request: Request, nowMs: nat, engine: RegexEngine, pages: seq<PageQuery>)
  {
    && QuietPages(request, engine, pages) && NoPageCancelled(pages)
    && pages[0].files == files && pages[0].batches == table
    && (forall page <- pages :: page.nowMs == nowMs)
    && pages[|pages| - 1].response.nextCursorSeq.None?
  }

  /** What a request selects reads back and is covered by its summaries. */
  ghost predicate Whole(files: Files, batches: seq<MetadataRow>) {
    AllCovered(files, batches) && forall batch <- batches :: !IsStale(files, batch)
  }

  /** Nothing is written between the pages and nothing drops out of range. */
  ghost predicate Unchanged(steps: seq<PageStep>, all: seq<QueryRow>) {
    forall step <- steps :: step.view == all && step.gone == 0
  }

  function StepOf(all: seq<QueryRow>, page: PageQuery): PageStep {
    PageStep(all, 0, page.expired, page.cancel, page.scanned, page.response)
  }

  function StepsOver(all: seq<QueryRow>, pages: seq<PageQuery>): (steps: seq<PageStep>)
    ensures |steps| == |pages| && forall i | 0 <= i < |pages| :: steps[i] == StepOf(all, pages[i])
  {
    if pages == [] then [] else [StepOf(all, pages[0])] + StepsOver(all, pages[1..])
  }

  lemma {:induction false} StepsOverRows(all: seq<QueryRow>, pages: seq<PageQuery>)
    ensures RowsOf(StepsOver(all, pages)) == RowsByPage(pages)
  {
    if pages != [] {
      StepsOverRows(all, pages[1..]);
      assert StepsOver(all, pages)[1..] == StepsOver(all, pages[1..]);
    }
  }

  lemma {:induction false} SameView(
      files: Files, table: seq<MetadataRow>, request: Request, cursor: Option<nat>, nowMs: nat, engine: RegexEngine)
    ensures var current := request.(cursorSeq := cursor);
      && QueriedBatches(table, current, nowMs) == QueriedBatches(table, request, nowMs)
      && View(files, table, current, nowMs) == View(files, table, request, nowMs)
      && BuildMatcher(current, engine) == BuildMatcher(request, engine)
      && (PruneSafe(current) <==> PruneSafe(request))
  {
    hide AllRows, Filter;
  }

  /** Pages that queries answer follow the cursor over the rows of the store. */
  lemma {:induction false} QueriesFollowCursor(
      files: Files, table: seq<MetadataRow>, request: Request, nowMs: nat, engine: RegexEngine, matcher: TextMatcher,
      pages: seq<PageQuery>)
    requires QuietPages(request, engine, pages) && pages[0].files == files && pages[0].batches == table
    requires forall page <- pages :: page.nowMs == nowMs
    requires Whole(files, QueriedBatches(table, request, nowMs))
    requires PruneSafe(request) && BuildMatcher(request, engine) == Ok(matcher)
    ensures var all := View(files, table, request, nowMs);
      FollowsCursor(all, 0, request, matcher, StepsOver(all, pages))
    decreases |pages|
  {
    var page := pages[0];
    assert Answered(request, engine, page) && page in pages;
    hide Answered, Whole, PruneSafe, BuildMatcher, IsPage, Sees, View, QueriedBatches, StepsOver, Without;
    var all := View(files, table, request, nowMs);
    var steps := StepsOver(all, pages);
    FirstQuery(files, table, request, nowMs, engine, matcher, page, all);
    StepsOverRest(all, pages);
    if |pages| > 1 {
      SameView(files, table, request, page.response.nextCursorSeq, nowMs, engine);
      assert forall later <- pages[1..] :: later in pages;
      NextRequestIs(request, page.response);
      QueriesFollowCursor(
        files, table, NextRequest(request, page.response), nowMs, engine, matcher, pages[1..]);
    }
  }

  lemma {:induction false} StepsOverRest(all: seq<QueryRow>, pages: seq<PageQuery>)
    requires pages != []
    ensures StepsOver(all, pages) != [] && StepsOver(all, pages)[0] == StepOf(all, pages[0])
    ensures |StepsOver(all, pages)| == |pages| && StepsOver(all, pages)[1..] == StepsOver(all, pages[1..])
  {
  }

  lemma {:induction false} FirstQuery(
      files: Files, table: seq<MetadataRow>, request: Request, nowMs: nat, engine: RegexEngine, matcher: TextMatcher,
      page: PageQuery, all: seq<QueryRow>)
    requires Answered(request, engine, page) && page.files == files && page.batches == table && page.nowMs == nowMs
    requires Whole(files, QueriedBatches(table, request, nowMs)) && all == View(files, table, request, nowMs)
    requires PruneSafe(request) && BuildMatcher(request, engine) == Ok(matcher)
    ensures IsPage(all, request, Rules(request, matcher, page.expired), page.scanned, page.response)
    ensures CancelledByPoll(StepOf(all, page)) && Sees(all, all, 0, request.cursorSeq)
    ensures Without(page.batches, page.stale) == table
  {
    hide Answered, PruneSafe, BuildMatcher, IsPage, QueriedBatches, AllCovered, IsStale, PollsCancelled, Without, AllRows;
    CoveredAnswerIsPage(request, engine, matcher, page);
    NothingStaleNothingGoes(request, engine, page);
    assert all[0..] == all && all[|all|..] == [];
  }

  lemma {:induction false} RunParts(
      files: Files, table: seq<MetadataRow>, request: Request, nowMs: nat, engine: RegexEngine, pages: seq<PageQuery>,
      all: seq<QueryRow>)
    requires QueryRun(files, table, request, nowMs, engine, pages)
    ensures var steps := StepsOver(all, pages);
      Finished(steps) && Unchanged(steps, all) && NeverCancelled(steps) && steps != [] && LastGone(steps) == 0
  {
    hide QuietPages, PollsCancelled;
    assert pages != [] by { NoPages(request, engine, pages); }
    var steps := StepsOver(all, pages);
    forall step <- steps ensures step.view == all && step.gone == 0 && forall p: nat :: !PollsCancelled(step.cancel, p) {
      var i :| 0 <= i < |steps| && steps[i] == step;
      assert pages[i] in pages;
    }
  }

  lemma {:induction false} NoPages(request: Request, engine: RegexEngine, pages: seq<PageQuery>)
    requires QuietPages(request, engine, pages)
    ensures pages != []
  {
  }

  /** Over rows that ascend a run of queries returns what the filter over all of them returns. */
  lemma {:induction false} AscendingIsComplete(
      files: Files, table: seq<MetadataRow>, request: Request, nowMs: nat, engine: RegexEngine, matcher: TextMatcher,
      pages: seq<PageQuery>)
    requires QueryRun(files, table, request, nowMs, engine, pages)
    requires Whole(files, QueriedBatches(table, request, nowMs)) && Ascending(View(files, table, request, nowMs))
    requires PruneSafe(request) && BuildMatcher(request, engine) == Ok(matcher)
    ensures JoinPages(RowsByPage(pages)) == Expected(View(files, table, request, nowMs), request, matcher)
  {
    assert QuietPages(request, engine, pages) && pages[0].files == files && pages[0].batches == table;
    hide QuietPages, FollowsCursor, Whole, PruneSafe, BuildMatcher, View, Expected, QueriedBatches, Ascending;
    var all := View(files, table, request, nowMs);
    QueriesFollowCursor(files, table, request, nowMs, engine, matcher, pages);
    RunParts(files, table, request, nowMs, engine, pages, all);
    StepsOverRows(all, pages);
    PagesAreComplete(all, 0, request, matcher, StepsOver(all, pages));
    assert all[0..] == all;
  }

  /** Everything, one row a page. */
  function OneRowRequest(streamId: string, cursor: Option<nat>): Request {
    Request(streamId, "", false, false, [], "", "", "", "", SQLITE_MAX_TIME_MS, 1, cursor, None)
  }

  lemma {:induction false} OneRowScope(streamId: string, row: QueryRow, cursor: Option<nat>)
    ensures InScope(OneRowRequest(streamId, cursor))(row) <==> (cursor.Some? ==> row.seqNo < cursor.value)
    ensures MatchesText(MatchAll)(row)
  {
    assert Trim("") == "";
  }

  /** A page holds the one row it scanned, if any; its cursor is the number of that row. */
  lemma {:induction false} OneRowPage(
      streamId: string, all: seq<QueryRow>, cursor: Option<nat>, expired: nat -> bool, scanned: seq<QueryRow>,
      response: Response)
    requires var request := OneRowRequest(streamId, cursor);
      IsPage(all, request, Rules(request, MatchAll, expired), scanned, response)
    ensures |scanned| <= 1 && response.rows == scanned
    ensures IsSuffix(scanned, Filter(all, InScope(OneRowRequest(streamId, cursor))))
    ensures forall row <- scanned :: row in all && (cursor.Some? ==> row.seqNo < cursor.value)
    ensures response.nextCursorSeq.Some? ==> scanned != [] && response.nextCursorSeq == Some(scanned[0].seqNo)
  {
    hide InScope, MatchesText, RanThrough, IsPage;
    var request := OneRowRequest(streamId, cursor);
    var rules := Rules(request, MatchAll, expired);
    assert Paused(rules, scanned, response.stopReason) && IsSuffix(scanned, Filter(all, InScope(request)))
      && response == Respond(rules, scanned, response.stopReason) by { PageParts(all, request, rules, scanned, response); }
    FilterMember(all, InScope(request));
    forall row <- scanned
      ensures row in all && (cursor.Some? ==> row.seqNo < cursor.value) && MatchesText(MatchAll)(row)
    {
      OneRowScope(streamId, row, cursor);
    }
    FilterAll(scanned, MatchesText(MatchAll));
    AtMostOne(rules, scanned, response.stopReason);
    if scanned == [] {
      assert Reverse(scanned) == [];
    } else {
      assert scanned == [scanned[0]];
      assert Reverse(scanned) == scanned && SortBySeq(scanned) == scanned;
    }
  }

  lemma {:induction false} PageParts(
      all: seq<QueryRow>, request: Request, rules: ScanRules, scanned: seq<QueryRow>, response: Response)
    requires IsPage(all, request, rules, scanned, response)
    ensures Paused(rules, scanned, response.stopReason) && IsSuffix(scanned, Filter(all, InScope(request)))
    ensures response == Respond(rules, scanned, response.stopReason)
  {
  }

  lemma {:induction false} AtMostOne(rules: ScanRules, scanned: seq<QueryRow>, reason: StopReason)
    requires Paused(rules, scanned, reason) && rules.limit == 1
    ensures |Filter(scanned, MatchesText(rules.matcher))| <= 1
  {
    hide MatchesText;
    FewMatches(rules, scanned, reason);
    if reason == Limit {
      FewMatches(rules, scanned[1..], Complete);
    }
  }

  /** The first of some pages, and those after it. */
  lemma {:induction false} OneRowFirst(
      streamId: string, all: seq<QueryRow>, cursor: Option<nat>, steps: seq<PageStep>)
    requires FollowsCursor(all, 0, OneRowRequest(streamId, cursor), MatchAll, steps) && Unchanged(steps, all)
    ensures steps != []
    ensures var step := steps[0];
      var rows, next := step.response.rows, step.response.nextCursorSeq;
      && |rows| <= 1 && IsSuffix(rows, Filter(all, InScope(OneRowRequest(streamId, cursor))))
      && (forall row <- rows :: row in all && (cursor.Some? ==> row.seqNo < cursor.value))
      && if |steps| == 1 then JoinPages(RowsOf(steps)) == rows
         else
           && rows != [] && next == Some(rows[0].seqNo)
           && FollowsCursor(all, 0, OneRowRequest(streamId, next), MatchAll, steps[1..]) && Unchanged(steps[1..], all)
           && JoinPages(RowsOf(steps)) == JoinPages(RowsOf(steps[1..])) + rows
  {
    hide IsPage, Sees, InScope, Filter, CancelledByPoll, Rules;
    var step := steps[0];
    assert step in steps && forall later <- steps[1..] :: later in steps;
    OneRowPage(streamId, all, cursor, step.expired, step.scanned, step.response);
    assert RowsOf(steps)[1..] == RowsOf(steps[1..]);
    if |steps| == 1 {
      assert steps[1..] == [] && [] + step.response.rows == step.response.rows;
    }
  }

  lemma {:induction false} OneRowPagesAscend(
      streamId: string, all: seq<QueryRow>, cursor: Option<nat>, steps: seq<PageStep>)
    requires FollowsCursor(all, 0, OneRowRequest(streamId, cursor), MatchAll, steps) && Unchanged(steps, all)
    ensures Ascending(JoinPages(RowsOf(steps)))
    ensures forall row <- JoinPages(RowsOf(steps)) :: row in all && (cursor.Some? ==> row.seqNo < cursor.value)
    ensures forall step <- steps :: |step.response.rows| <= 1
    decreases |steps|
  {
    hide FollowsCursor, Unchanged, RowsOf, JoinPages, InScope, Filter, IsSuffix;
    OneRowFirst(streamId, all, cursor, steps);
    assert steps == [steps[0]] + steps[1..];
    var rows := steps[0].response.rows;
    assert Ascending(rows);
    if |steps| > 1 {
      OneRowPagesAscend(streamId, all, steps[0].response.nextCursorSeq, steps[1..]);
      AscendingParts(JoinPages(RowsOf(steps[1..])), rows);
    }
  }

  /** No row comes back that is numbered above the last one visited first. */
  lemma {:induction false} OneRowPagesBelowLast(streamId: string, all: seq<QueryRow>, steps: seq<PageStep>)
    requires FollowsCursor(all, 0, OneRowRequest(streamId, None), MatchAll, steps) && Unchanged(steps, all)
    ensures forall row <- JoinPages(RowsOf(steps)) :: all != [] && row.seqNo <= all[|all| - 1].seqNo
  {
    hide FollowsCursor, Unchanged, RowsOf, JoinPages, InScope, Filter;
    OneRowFirst(streamId, all, None, steps);
    forall row <- all ensures InScope(OneRowRequest(streamId, None))(row) { OneRowScope(streamId, row, None); }
    FilterAll(all, InScope(OneRowRequest(streamId, None)));
    if |steps| > 1 {
      OneRowPagesAscend(streamId, all, steps[0].response.nextCursorSeq, steps[1..]);
    }
  }

  // ----- Such runs exist -----

  /** Any list of rows, rules and deadlines have a page. */
  lemma {:induction false} ScanEnds(rules: ScanRules, candidates: seq<QueryRow>, i: nat)
    returns (scanned: seq<QueryRow>, reason: StopReason)
    requires i <= |candidates| && RanThrough(rules, candidates[i..])
    ensures Stopped(rules, candidates, scanned, reason) && reason != Cancelled
    decreases i
  {
    hide MatchesText;
    if i == 0 {
      assert candidates[0..] == candidates;
      scanned, reason := candidates, Complete;
    } else {
      scanned := candidates[i - 1..];
      assert scanned[1..] == candidates[i..];
      reason := Verdict(rules, scanned);
      if reason == Complete {
        scanned, reason := ScanEnds(rules, candidates, i - 1);
      }
    }
  }

  function Above(all: seq<QueryRow>): (bound: nat)
    ensures forall row <- all :: row.seqNo < bound
  {
    if all == [] then 0
    else
      var rest := Above(all[1..]);
      assert all == [all[0]] + all[1..];
      if all[0].seqNo < rest then rest else all[0].seqNo + 1
  }

  lemma {:induction false} RunExists(streamId: string, all: seq<QueryRow>, cursor: Option<nat>)
    returns (steps: seq<PageStep>)
    ensures FollowsCursor(all, 0, OneRowRequest(streamId, cursor), MatchAll, steps)
    ensures Finished(steps) && Unchanged(steps, all) && NeverCancelled(steps)
    decreases if cursor.None? then Above(all) else cursor.value
  {
    hide InScope, Respond, Stopped, RanThrough;
    var request := OneRowRequest(streamId, cursor);
    var expired := (n: nat) => false;
    var rules := Rules(request, MatchAll, expired);
    var candidates := Filter(all, InScope(request));
    assert candidates[|candidates|..] == [] && RanThrough(rules, []) by { NothingRan(rules); }
    var scanned, reason := ScanEnds(rules, candidates, |candidates|);
    var response := Respond(rules, scanned, reason);
    assert response.stopReason == reason by { RespondReason(rules, scanned, reason); }
    var step := PageStep(all, 0, expired, None, scanned, response);
    assert all[0..] == all && all[|all|..] == [];
    assert Sees(all, all, 0, cursor);
    assert IsPage(all, request, rules, scanned, response);
    if response.nextCursorSeq.None? {
      steps := [step];
    } else {
      OneRowPage(streamId, all, cursor, expired, scanned, response);
      var rest := RunExists(streamId, all, response.nextCursorSeq);
      steps := [step] + rest;
      assert steps[1..] == rest;
      assert NextRequest(request, response) == OneRowRequest(streamId, response.nextCursorSeq);
    }
  }

  lemma {:induction false} NothingRan(rules: ScanRules)
    ensures RanThrough(rules, [])
  {
  }

  lemma {:induction false} RespondReason(rules: ScanRules, scanned: seq<QueryRow>, reason: StopReason)
    ensures Respond(rules, scanned, reason).stopReason == reason
  {
  }

  // ----- Pages of a list of rows are answers of queries -----

  function QueryOf(files: Files, table: seq<MetadataRow>, nowMs: nat, step: PageStep): PageQuery {
    PageQuery(files, table, nowMs, step.expired, None, step.scanned, {}, 1, step.response)
  }

  function QueriesOf(
      files: Files, table: seq<MetadataRow>, nowMs: nat, steps: seq<PageStep>): (pages: seq<PageQuery>)
    ensures |pages| == |steps| && forall i | 0 <= i < |steps| :: pages[i] == QueryOf(files, table, nowMs, steps[i])
  {
    if steps == [] then [] else [QueryOf(files, table, nowMs, steps[0])] + QueriesOf(files, table, nowMs, steps[1..])
  }

  lemma {:induction false} QueriesOfRows(files: Files, table: seq<MetadataRow>, nowMs: nat, steps: seq<PageStep>)
    ensures RowsByPage(QueriesOf(files, table, nowMs, steps)) == RowsOf(steps)
  {
    if steps != [] {
      QueriesOfRows(files, table, nowMs, steps[1..]);
      assert QueriesOf(files, table, nowMs, steps)[1..] == QueriesOf(files, table, nowMs, steps[1..]);
    }
  }

  lemma {:induction false} StepIsQuery(
      files: Files, table: seq<MetadataRow>, request: Request, nowMs: nat, engine: RegexEngine, matcher: TextMatcher,
      step: PageStep)
    requires step.view == View(files, table, request, nowMs) && step.response.stopReason != Cancelled
    requires IsPage(step.view, request, Rules(request, matcher, step.expired), step.scanned, step.response)
    requires Whole(files, QueriedBatches(table, request, nowMs))
    requires PruneSafe(request) && BuildMatcher(request, engine) == Ok(matcher)
    ensures Answered(request, engine, QueryOf(files, table, nowMs, step))
  {
    hide Answered, PruneSafe, BuildMatcher, IsPage, QueriedBatches, AllCovered, IsStale, AllRows;
    PageIsAnswer(request, engine, matcher, QueryOf(files, table, nowMs, step));
  }

  lemma {:induction false} StepsAreQueries(
      files: Files, table: seq<MetadataRow>, request: Request, nowMs: nat, engine: RegexEngine, matcher: TextMatcher,
      steps: seq<PageStep>)
    requires var all := View(files, table, request, nowMs);
      FollowsCursor(all, 0, request, matcher, steps) && Unchanged(steps, all) && NeverCancelled(steps)
    requires Whole(files, QueriedBatches(table, request, nowMs))
    requires PruneSafe(request) && BuildMatcher(request, engine) == Ok(matcher)
    ensures QuietPages(request, engine, QueriesOf(files, table, nowMs, steps))
    decreases |steps|
  {
    hide Answered, Whole, PruneSafe, BuildMatcher, IsPage, Sees, View, QueriedBatches, PollsCancelled;
    var step, rest := steps[0], steps[1..];
    assert step in steps && forall later <- rest :: later in steps;
    assert step.response.stopReason != Cancelled;
    StepIsQuery(files, table, request, nowMs, engine, matcher, step);
    var pages := QueriesOf(files, table, nowMs, steps);
    assert pages[1..] == QueriesOf(files, table, nowMs, rest);
    WithoutNothing(table);
    if |steps| > 1 {
      SameView(files, table, request, step.response.nextCursorSeq, nowMs, engine);
      NextRequestIs(request, step.response);
      StepsAreQueries(files, table, NextRequest(request, step.response), nowMs, engine, matcher, rest);
    }
  }

  /** A store has a run of queries that asks for everything, one row a page. */
  lemma {:induction false} OneRowQueries(
      files: Files, table: seq<MetadataRow>, streamId: string, nowMs: nat, engine: RegexEngine)
    returns (pages: seq<PageQuery>)
    requires Whole(files, QueriedBatches(table, OneRowRequest(streamId, None), nowMs))
    ensures QueryRun(files, table, OneRowRequest(streamId, None), nowMs, engine, pages)
    ensures forall page <- pages :: page.cancel == None && |page.response.rows| <= 1
    ensures var all, joined := View(files, table, OneRowRequest(streamId, None), nowMs), JoinPages(RowsByPage(pages));
      && Ascending(joined) && (Ascending(all) ==> joined == all)
      && forall row <- joined :: row in all && row.seqNo <= all[|all| - 1].seqNo
  {
    hide FollowsCursor, Whole, View, QueriedBatches, QuietPages, Ascending, PollsCancelled;
    var request := OneRowRequest(streamId, None);
    var all := View(files, table, request, nowMs);
    OneRowAsksForAll(streamId, None, all, engine);
    var steps := RunExists(streamId, all, None);
    StepsAreQueries(files, table, request, nowMs, engine, MatchAll, steps);
    pages := QueriesOf(files, table, nowMs, steps);
    QueriesOfRows(files, table, nowMs, steps);
    OneRowPagesAscend(streamId, all, None, steps);
    OneRowPagesBelowLast(streamId, all, steps);
    NoPages(request, engine, pages);
    assert forall page <- pages :: page.cancel == None && page.nowMs == nowMs;
    assert NoPageCancelled(pages) by { NoneCancelled(pages); }
    if Ascending(all) {
      AscendingIsComplete(files, table, request, nowMs, engine, MatchAll, pages);
    }
  }

  lemma {:induction false} NoneCancelled(pages: seq<PageQuery>)
    requires forall page <- pages :: page.cancel == None
    ensures NoPageCancelled(pages)
  {
  }

  lemma {:induction false} OneRowAsksForAll(
      streamId: string, cursor: Option<nat>, all: seq<QueryRow>, engine: RegexEngine)
    ensures var request := OneRowRequest(streamId, cursor);
      && request.streamId == streamId && PruneSafe(request) && BuildMatcher(request, engine) == Ok(MatchAll)
      && (cursor.None? ==> Expected(all, request, MatchAll) == all)
  {
    var request := OneRowRequest(streamId, cursor);
    assert Trim("") == "";
    hide InScope, MatchesText;
    forall row <- all ensures cursor.None? ==> InScope(request)(row) && MatchesText(MatchAll)(row) {
      OneRowScope(streamId, row, cursor);
    }
    if cursor.None? {
      FilterAll(all, InScope(request));
      FilterAll(all, MatchesText(MatchAll));
    }
  }

  // ----- The rows a run of the sink writes, whatever its clock -----

  /** Newest first, on top of those already written. */
  function RowsWritten(sink: Sink, events: seq<SinkEvent>, before: seq<MetadataRow>): seq<MetadataRow>
    decreases |events|
  {
    if events == [] then before
    else
      RowsWritten(
        Step(sink, events[0]), events[1..],
        if IsStored(events[0]) then [BatchRow(sink, events[0].job)] + before else before)
  }

  /** The table of rows inserted oldest first. */
  function Inserted(rows: seq<MetadataRow>): seq<MetadataRow> {
    if rows == [] then [] else InsertOrdered(Inserted(rows[1..]), rows[0])
  }

  lemma {:induction false} InsertedRows(rows: seq<MetadataRow>)
    ensures Ordered(Inserted(rows)) && forall row :: row in Inserted(rows) <==> row in rows
  {
    if rows != [] {
      InsertedRows(rows[1..]);
      InsertKeepsOrder(Inserted(rows[1..]), rows[0]);
      assert rows == [rows[0]] + rows[1..];
    }
  }

  lemma {:induction false} TableHoldsWritten(sink: Sink, events: seq<SinkEvent>, before: seq<MetadataRow>)
    requires Ordered(sink.table) && Filter(sink.table, OfStream(sink.streamId)) == Inserted(before)
    ensures Run(sink, events).streamId == sink.streamId && Ordered(Run(sink, events).table)
    ensures Filter(Run(sink, events).table, OfStream(sink.streamId)) == Inserted(RowsWritten(sink, events, before))
    decreases |events|
  {
    hide BatchBytes, LevelSummary, InsertOrdered, Ordered;
    if events != [] {
      var more := if IsStored(events[0]) then [BatchRow(sink, events[0].job)] + before else before;
      assert IsStored(events[0]) ==> more[1..] == before;
      match events[0] {
        case Own(job) =>
          InsertKeepsOrder(sink.table, BatchRow(sink, job));
          FilterInsert(sink.table, BatchRow(sink, job), OfStream(sink.streamId));
        case Foreign(row) =>
          InsertKeepsOrder(sink.table, row);
          FilterInsert(sink.table, row, OfStream(sink.streamId));
      }
      TableHoldsWritten(Step(sink, events[0]), events[1..], more);
    }
  }

  /** Newest first, the rows index the batches in disjoint descending intervals of sequence numbers. */
  ghost predicate Numbered(
      file: seq<Byte>, streamId: string, rows: seq<MetadataRow>, stored: seq<seq<string>>, nextSeq: nat)
  {
    && |rows| == |stored|
    && (forall i | 0 <= i < |rows| :: Backs(file, streamId, rows[i], stored[i]))
    && (forall i | 0 <= i < |rows| :: rows[i].firstSeq + rows[i].lineCount <= nextSeq)
    && forall i, j | 0 <= i < j < |rows| :: rows[j].firstSeq + rows[j].lineCount <= rows[i].firstSeq
  }

  lemma {:induction false} NumberedOn(
      file: seq<Byte>, more: seq<Byte>, streamId: string, rows: seq<MetadataRow>, stored: seq<seq<string>>,
      nextSeq: nat, later: nat)
    requires Numbered(file, streamId, rows, stored, nextSeq) && nextSeq <= later
    ensures Numbered(file + more, streamId, rows, stored, later)
  {
    hide Backs;
    forall i | 0 <= i < |rows| ensures Backs(file + more, streamId, rows[i], stored[i]) {
      StillBacked(file, more, streamId, rows[i], stored[i]);
    }
  }

  lemma {:induction false} NumberedStep(
      sink: Sink, job: WriteJob, rows: seq<MetadataRow>, stored: seq<seq<string>>)
    requires Numbered(sink.file, sink.streamId, rows, stored, sink.nextSeq)
    ensures var after := Persist(sink, job);
      if IsStored(Own(job)) then
        Numbered(after.file, sink.streamId, [BatchRow(sink, job)] + rows, [job.lines] + stored, after.nextSeq)
      else Numbered(after.file, sink.streamId, rows, stored, after.nextSeq)
  {
    hide Backs, BatchBytes, LevelSummary, InsertOrdered;
    if job.appendOk {
      NumberedOn(
        sink.file, BatchBytes(job.lines), sink.streamId, rows, stored, sink.nextSeq, sink.nextSeq + |job.lines|);
      NewlyBacked(sink, job);
    }
  }

  lemma {:induction false} RunNumbers(
      sink: Sink, events: seq<SinkEvent>, rows: seq<MetadataRow>, stored: seq<seq<string>>)
    requires Numbered(sink.file, sink.streamId, rows, stored, sink.nextSeq)
    ensures var after := Run(sink, events);
      Numbered(after.file, sink.streamId, RowsWritten(sink, events, rows), StoredBy(events, stored), after.nextSeq)
    decreases |events|
  {
    hide Numbered, Persist, BatchRow;
    if events != [] {
      var stay := IsStored(events[0]);
      if events[0].Own? {
        NumberedStep(sink, events[0].job, rows, stored);
        KeepsStream(sink, events[0].job);
      }
      RunNumbers(
        Step(sink, events[0]), events[1..],
        if stay then [BatchRow(sink, events[0].job)] + rows else rows,
        if stay then [events[0].job.lines] + stored else stored);
    }
  }

  lemma {:induction false} KeepsStream(sink: Sink, job: WriteJob)
    ensures Persist(sink, job).streamId == sink.streamId
  {
  }

  // ----- Receive times -----

  /** The receive time of the newest batch that is not empty. */
  function LastTime(rows: seq<MetadataRow>): nat {
    if rows == [] then 0 else if rows[0].lineCount > 0 then rows[0].receivedAtMs else LastTime(rows[1..])
  }

  predicate TimeOrdered(rows: seq<MetadataRow>) {
    rows == []
    || ((rows[0].lineCount > 0 ==> LastTime(rows[1..]) <= rows[0].receivedAtMs) && TimeOrdered(rows[1..]))
  }

  /** What a caller can observe: receive times do not decrease over the stored batches that are not empty. */
  predicate InClockOrder(events: seq<SinkEvent>, since: nat) {
    events != [] ==>
      if IsStored(events[0]) && events[0].job.lines != []
      then since <= events[0].job.nowMs && InClockOrder(events[1..], events[0].job.nowMs)
      else InClockOrder(events[1..], since)
  }

  lemma {:induction false} ClockIsTimes(sink: Sink, events: seq<SinkEvent>, before: seq<MetadataRow>)
    ensures TimeOrdered(RowsWritten(sink, events, before))
       <==> TimeOrdered(before) && InClockOrder(events, LastTime(before))
    decreases |events|
  {
    hide Step, BatchBytes, LevelSummary;
    if events != [] {
      var more := if IsStored(events[0]) then [BatchRow(sink, events[0].job)] + before else before;
      assert IsStored(events[0]) ==> more[1..] == before;
      ClockIsTimes(Step(sink, events[0]), events[1..], more);
    }
  }

  lemma {:induction false} TimesBelow(rows: seq<MetadataRow>)
    requires TimeOrdered(rows)
    ensures forall row <- rows :: row.lineCount > 0 ==> row.receivedAtMs <= LastTime(rows)
  {
    if rows != [] {
      TimesBelow(rows[1..]);
      assert rows == [rows[0]] + rows[1..];
    }
  }

  lemma {:induction false} LastTimeIsSome(rows: seq<MetadataRow>)
    ensures LastTime(rows) == 0 || exists row <- rows :: row.lineCount > 0 && row.receivedAtMs == LastTime(rows)
  {
    if rows != [] {
      LastTimeIsSome(rows[1..]);
      assert rows == [rows[0]] + rows[1..];
    }
  }

  // ----- Rows in the order of the table -----

  /** Each batch reads back whole, and newest first their numbers descend. */
  ghost predicate Descends(files: Files, rows: seq<MetadataRow>) {
    && (forall row <- rows :: |BatchRows(files, row)| == row.lineCount)
    && forall i, j | 0 <= i < j < |rows| :: rows[j].firstSeq + rows[j].lineCount <= rows[i].firstSeq
  }

  lemma {:induction false} DescendsIsSequence(files: Files, rows: seq<MetadataRow>)
    requires Descends(files, rows)
    ensures SeqDescending(files, rows)
  {
    hide BatchRows;
    if rows != [] {
      assert forall row <- rows[1..] :: row in rows;
      DescendsIsSequence(files, rows[1..]);
    }
  }

  /** A batch inserted before every older batch that is not empty comes last among the rows. */
  lemma {:induction false} InsertedLast(files: Files, table: seq<MetadataRow>, row: MetadataRow)
    requires forall older <- table :: BatchRows(files, older) == [] || BatchRows(files, row) == [] || NotOlder(row, older)
    ensures AllRows(files, InsertOrdered(table, row)) == AllRows(files, table) + BatchRows(files, row)
  {
    hide BatchRows;
    if table == [] || NotOlder(row, table[0]) {
      assert ([row] + table)[1..] == table;
    } else {
      assert table == [table[0]] + table[1..];
      InsertedLast(files, table[1..], row);
      var rest := InsertOrdered(table[1..], row);
      assert ([table[0]] + rest)[1..] == rest;
    }
  }

  /** If the clock did not step back, the table holds the rows in the order they were written. */
  lemma {:induction false} WriteOrder(files: Files, rows: seq<MetadataRow>)
    requires Descends(files, rows) && TimeOrdered(rows)
    ensures AllRows(files, Inserted(rows)) == AllRows(files, rows)
  {
    hide BatchRows;
    if rows != [] {
      var newest, rest := rows[0], rows[1..];
      assert forall row <- rest :: row in rows;
      WriteOrder(files, rest);
      InsertedRows(rest);
      TimesBelow(rest);
      forall older <- Inserted(rest)
        ensures BatchRows(files, older) == [] || BatchRows(files, newest) == [] || NotOlder(newest, older)
      {
        var j :| 0 <= j < |rest| && rest[j] == older;
        assert rows[j + 1] == older && newest in rows && older in rows;
      }
      InsertedLast(files, Inserted(rest), newest);
    }
  }

  lemma {:induction false} AscendingBefore(files: Files, table: seq<MetadataRow>, row: MetadataRow)
    requires Ascending(AllRows(files, InsertOrdered(table, row)))
    ensures Ascending(AllRows(files, table))
    ensures forall x <- AllRows(files, table) :: x in AllRows(files, InsertOrdered(table, row))
  {
    hide BatchRows;
    if table == [] || NotOlder(row, table[0]) {
      assert ([row] + table)[1..] == table;
      AscendingParts(AllRows(files, table), BatchRows(files, row));
    } else {
      var rest := InsertOrdered(table[1..], row);
      assert ([table[0]] + rest)[1..] == rest;
      AscendingParts(AllRows(files, rest), BatchRows(files, table[0]));
      AscendingBefore(files, table[1..], row);
      AscendingParts(AllRows(files, table[1..]), BatchRows(files, table[0]));
    }
  }

  lemma {:induction false} HeldRows(files: Files, table: seq<MetadataRow>, batch: MetadataRow)
    requires batch in table
    ensures forall row <- BatchRows(files, batch) :: row in AllRows(files, table)
  {
    hide BatchRows;
    if table[0] != batch {
      assert table == [table[0]] + table[1..];
      HeldRows(files, table[1..], batch);
    }
  }

  lemma {:induction false} FirstRow(files: Files, batch: MetadataRow)
    requires BatchRows(files, batch) != []
    ensures BatchRows(files, batch)[0].seqNo == batch.firstSeq
  {
    hide BatchLines;
    ParsedRow(batch.firstSeq, batch.receivedAtMs, BatchLines(files, batch).value, 0);
  }

  /** Of two batches in an ascending table the one received later has the later numbers. */
  lemma {:induction false} LaterReceivedLaterNumbered(
      files: Files, table: seq<MetadataRow>, later: MetadataRow, earlier: MetadataRow)
    requires Ordered(table) && Ascending(AllRows(files, table))
    requires later in table && earlier in table && earlier.receivedAtMs < later.receivedAtMs
    requires BatchRows(files, later) != [] && BatchRows(files, earlier) != []
    ensures earlier.firstSeq < later.firstSeq
  {
    hide BatchRows;
    var head, rest := table[0], table[1..];
    assert table == [head] + rest;
    AscendingParts(AllRows(files, rest), BatchRows(files, head));
    if head == later {
      HeldRows(files, rest, earlier);
      FirstRow(files, later);
      FirstRow(files, earlier);
      assert BatchRows(files, earlier)[0] in AllRows(files, rest) && BatchRows(files, later)[0] in BatchRows(files, later);
    } else {
      assert head != earlier by {
        assert later in rest;
      }
      LaterReceivedLaterNumbered(files, rest, later, earlier);
    }
  }

  lemma {:induction false} NewestIsLatest(files: Files, rows: seq<MetadataRow>, older: MetadataRow)
    requires Descends(files, rows) && rows != [] && Ascending(AllRows(files, Inserted(rows)))
    requires older in rows[1..] && older.lineCount > 0 && rows[0].lineCount > 0
    ensures older.receivedAtMs <= rows[0].receivedAtMs
  {
    hide BatchRows, Ascending, AllRows, Ordered, Inserted;
    var j :| 0 <= j < |rows[1..]| && rows[1..][j] == older;
    assert rows[j + 1] == older && older in rows && rows[0] in rows;
    InsertedRows(rows);
    if rows[0].receivedAtMs < older.receivedAtMs {
      LaterReceivedLaterNumbered(files, Inserted(rows), older, rows[0]);
    }
  }

  lemma {:induction false} DescendsRest(files: Files, rows: seq<MetadataRow>)
    requires Descends(files, rows) && rows != []
    ensures Descends(files, rows[1..])
  {
    hide BatchRows;
    assert forall row <- rows[1..] :: row in rows;
  }

  lemma {:induction false} AscendingNeedsTimes(files: Files, rows: seq<MetadataRow>)
    requires Descends(files, rows) && Ascending(AllRows(files, Inserted(rows)))
    ensures TimeOrdered(rows)
  {
    if rows != [] {
      hide Descends, Ascending, AllRows;
      AscendingBefore(files, Inserted(rows[1..]), rows[0]);
      DescendsRest(files, rows);
      AscendingNeedsTimes(files, rows[1..]);
      LastTimeIsSome(rows[1..]);
      if rows[0].lineCount > 0 && rows[0].receivedAtMs < LastTime(rows[1..]) {
        var older :| older in rows[1..] && older.lineCount > 0 && older.receivedAtMs == LastTime(rows[1..]);
        NewestIsLatest(files, rows, older);
      }
    }
  }

  // ----- Exactly when paging is complete -----

  /** What the store can hold: lines without line feeds, batches of a size that can be read, times SQLite can hold. */
  ghost predicate Storable(events: seq<SinkEvent>) {
    forall event <- events :: IsStored(event) ==>
      && NoLineFeeds(event.job.lines) && |BatchBytes(event.job.lines)| <= MAX_SEGMENT_READ_BYTES
      && event.job.nowMs <= SQLITE_MAX_TIME_MS
  }

  ghost predicate Readable(rows: seq<MetadataRow>, stored: seq<seq<string>>) {
    && (forall lines <- stored :: NoLineFeeds(lines))
    && forall row <- rows :: row.segmentBytes <= MAX_SEGMENT_READ_BYTES && row.receivedAtMs <= SQLITE_MAX_TIME_MS
  }

  lemma {:induction false} StorableIsReadable(
      sink: Sink, events: seq<SinkEvent>, rows: seq<MetadataRow>, stored: seq<seq<string>>)
    requires Storable(events) && Readable(rows, stored)
    ensures Readable(RowsWritten(sink, events, rows), StoredBy(events, stored))
    decreases |events|
  {
    hide BatchBytes, NoLineFeeds, LevelSummary, Persist;
    if events != [] {
      assert events[0] in events && forall event <- events[1..] :: event in events;
      var stay := IsStored(events[0]);
      StorableIsReadable(
        Step(sink, events[0]), events[1..],
        if stay then [BatchRow(sink, events[0].job)] + rows else rows,
        if stay then [events[0].job.lines] + stored else stored);
    }
  }

  /** The rows of the stream in the table of a run, and what is known of them. */
  lemma {:induction false} RunTable(
      streamId: string, existing: seq<Byte>, table: seq<MetadataRow>, events: seq<SinkEvent>, files: Files)
    returns (rows: seq<MetadataRow>)
    requires Ordered(table) && (forall row <- table :: row.streamId != streamId) && Storable(events)
    requires var sink := Run(Sink(streamId, existing, 1, table), events);
      SegmentName(streamId) in files && files[SegmentName(streamId)] == sink.file
    ensures var sink := Run(Sink(streamId, existing, 1, table), events);
      && Filter(sink.table, OfStream(streamId)) == Inserted(rows)
      && Descends(files, rows) && (TimeOrdered(rows) <==> InClockOrder(events, 0))
      && (forall row <- rows :: row.streamId == streamId && row.receivedAtMs <= SQLITE_MAX_TIME_MS)
      && Whole(files, Filter(sink.table, OfStream(streamId)))
  {
    hide Backs, BatchRows, Run, RowsWritten, StoredBy, NoLineFeeds, Step, LevelsCovered, IsStale, Whole;
    var fresh0 := Sink(streamId, existing, 1, table);
    var stored := StoredBy(events, []);
    rows := RowsWritten(fresh0, events, []);
    FilterNone(table, OfStream(streamId));
    TableHoldsWritten(fresh0, events, []);
    RunNumbers(fresh0, events, [], []);
    StorableIsReadable(fresh0, events, [], []);
    ClockIsTimes(fresh0, events, []);
    assert LastTime([]) == 0 && TimeOrdered([]);
    var file := Run(fresh0, events).file;
    forall i | 0 <= i < |rows|
      ensures |BatchRows(files, rows[i])| == rows[i].lineCount && rows[i].streamId == streamId
      ensures LevelsCovered(files, rows[i]) && !IsStale(files, rows[i])
    {
      assert rows[i] in rows && stored[i] in stored;
      BackedBatchReads(files, file, streamId, rows[i], stored[i]);
      BackedCount(files, file, streamId, rows[i], stored[i]);
    }
    InsertedWhole(files, rows);
  }

  lemma {:induction false} InsertedWhole(files: Files, rows: seq<MetadataRow>)
    requires forall row <- rows :: LevelsCovered(files, row) && !IsStale(files, row)
    ensures Whole(files, Inserted(rows))
  {
    hide LevelsCovered, IsStale;
    InsertedRows(rows);
  }

  lemma {:induction false} BackedCount(
      files: Files, file: seq<Byte>, streamId: string, row: MetadataRow, lines: seq<string>)
    requires Backs(file, streamId, row, lines) && BatchLines(files, row) == Ok(StoredLines(lines))
    ensures |BatchRows(files, row)| == row.lineCount && row.streamId == streamId && !IsStale(files, row)
  {
    hide BatchLines, BatchBytes, LevelSummary;
  }

  lemma {:induction false} AscendingSelection(files: Files, table: seq<MetadataRow>, keep: MetadataRow -> bool)
    requires Ascending(AllRows(files, table))
    ensures Ascending(AllRows(files, Filter(table, keep)))
    ensures forall row <- AllRows(files, Filter(table, keep)) :: row in AllRows(files, table)
  {
    hide BatchRows;
    if table != [] {
      AscendingParts(AllRows(files, table[1..]), BatchRows(files, table[0]));
      AscendingSelection(files, table[1..], keep);
      var kept := Filter(table[1..], keep);
      if keep(table[0]) {
        assert ([table[0]] + kept)[1..] == kept;
        AscendingParts(AllRows(files, kept), BatchRows(files, table[0]));
      }
    }
  }

  function InTime(request: Request, nowMs: nat): MetadataRow -> bool {
    (row: MetadataRow) => RangeStart(nowMs, request.timeRangeMs) <= row.receivedAtMs <= RangeEnd(nowMs)
  }

  lemma {:induction false} SelectedOfStream(table: seq<MetadataRow>, request: Request, nowMs: nat)
    ensures QueriedBatches(table, request, nowMs)
         == Filter(Filter(table, OfStream(request.streamId)), InTime(request, nowMs))
  {
    FilterTwice(
      table, OfStream(request.streamId), InTime(request, nowMs),
      Selects(request.streamId, RangeStart(nowMs, request.timeRangeMs), RangeEnd(nowMs)));
  }

  /** Every request of the stream with safe filters, for any time range, at any time, is answered completely by its queries. */
  ghost predicate EveryRequestComplete(files: Files, table: seq<MetadataRow>, streamId: string) {
    forall request: Request, nowMs: nat, engine: RegexEngine, pages: seq<PageQuery> |
      && request.streamId == streamId && PruneSafe(request) && BuildMatcher(request, engine).Ok?
      && QueryRun(files, table, request, nowMs, engine, pages) ::
      JoinPages(RowsByPage(pages))
      == Expected(View(files, table, request, nowMs), request, BuildMatcher(request, engine).value)
  }

  lemma {:induction false} WholeSelection(files: Files, table: seq<MetadataRow>, request: Request, nowMs: nat)
    requires Whole(files, Filter(table, OfStream(request.streamId)))
    ensures Whole(files, QueriedBatches(table, request, nowMs))
  {
    hide LevelsCovered, IsStale, QueriedBatches;
    SelectedOfStream(table, request, nowMs);
    FilterMember(Filter(table, OfStream(request.streamId)), InTime(request, nowMs));
  }

  /**
    Over every run of a fresh sink, with any failures and any other streams in the table: the queries
    of every request with safe filters return, page by page, all it asks for, exactly if receive times
    do not decrease over the stored batches that are not empty.
    */
  lemma {:induction false} PagingNeedsTheClock(
      streamId: string, existing: seq<Byte>, table: seq<MetadataRow>, events: seq<SinkEvent>, files: Files)
    requires Ordered(table) && (forall row <- table :: row.streamId != streamId) && Storable(events)
    requires var sink := Run(Sink(streamId, existing, 1, table), events);
      SegmentName(streamId) in files && files[SegmentName(streamId)] == sink.file
    ensures var sink := Run(Sink(streamId, existing, 1, table), events);
      InClockOrder(events, 0) <==> EveryRequestComplete(files, sink.table, streamId)
  {
    hide Run, Storable, Ordered, Descends, Inserted, TimeOrdered, InClockOrder, QueryRun, QueriedBatches, Ascending,
      AllRows, Whole, PruneSafe, BuildMatcher;
    var sink := Run(Sink(streamId, existing, 1, table), events);
    var rows := RunTable(streamId, existing, table, events, files);
    var ours := Inserted(rows);
    InsertedRows(rows);
    if InClockOrder(events, 0) {
      WriteOrder(files, rows);
      DescendsIsSequence(files, rows);
      RowsAscend(files, rows);
      forall request: Request, nowMs: nat, engine: RegexEngine, pages: seq<PageQuery> |
        && request.streamId == streamId && PruneSafe(request) && BuildMatcher(request, engine).Ok?
        && QueryRun(files, sink.table, request, nowMs, engine, pages)
        ensures JoinPages(RowsByPage(pages))
             == Expected(View(files, sink.table, request, nowMs), request, BuildMatcher(request, engine).value)
      {
        SelectedOfStream(sink.table, request, nowMs);
        AscendingSelection(files, ours, InTime(request, nowMs));
        WholeSelection(files, sink.table, request, nowMs);
        AscendingIsComplete(
          files, sink.table, request, nowMs, engine, BuildMatcher(request, engine).value, pages);
      }
    }
    if EveryRequestComplete(files, sink.table, streamId) {
      OneRowViewsAll(files, sink.table, streamId, rows);
      OneRowPagingNeedsOrder(files, sink.table, streamId, SQLITE_MAX_TIME_MS);
      AscendingNeedsTimes(files, rows);
    }
  }

  lemma {:induction false} OneRowViewsAll(
      files: Files, table: seq<MetadataRow>, streamId: string, rows: seq<MetadataRow>)
    requires Filter(table, OfStream(streamId)) == Inserted(rows) && Whole(files, Inserted(rows))
    requires forall row <- rows :: row.receivedAtMs <= SQLITE_MAX_TIME_MS
    ensures var request := OneRowRequest(streamId, None);
      && View(files, table, request, SQLITE_MAX_TIME_MS) == AllRows(files, Inserted(rows))
      && Whole(files, QueriedBatches(table, request, SQLITE_MAX_TIME_MS))
  {
    hide AllRows, Whole, Inserted, QueriedBatches, Ordered;
    var request := OneRowRequest(streamId, None);
    InsertedRows(rows);
    SelectedOfStream(table, request, SQLITE_MAX_TIME_MS);
    FilterAll(Inserted(rows), InTime(request, SQLITE_MAX_TIME_MS));
    WholeSelection(files, table, request, SQLITE_MAX_TIME_MS);
  }

  lemma {:induction false} OneRowPagingNeedsOrder(
      files: Files, table: seq<MetadataRow>, streamId: string, nowMs: nat)
    requires EveryRequestComplete(files, table, streamId)
    requires Whole(files, QueriedBatches(table, OneRowRequest(streamId, None), nowMs))
    ensures Ascending(View(files, table, OneRowRequest(streamId, None), nowMs))
  {
    hide Whole, View, QueriedBatches, QueryRun, Ascending, PruneSafe, BuildMatcher, Expected;
    var engine: RegexEngine := (pattern, matchCase) => None;
    var request := OneRowRequest(streamId, None);
    var pages := OneRowQueries(files, table, streamId, nowMs, engine);
    OneRowAsksForAll(streamId, None, View(files, table, request, nowMs), engine);
    assert QueryRun(files, table, request, nowMs, engine, pages);
  }

  /** Two batches of one line, the clock stepping back from 20 to 10 between them. */
  function BackwardEvents(): seq<SinkEvent> {
    [Own(WriteJob("d", ["one"], 20, true, true, 0)), Own(WriteJob("d", ["two"], 10, true, true, 0))]
  }

  /** The later batch comes last in the table, so its row is visited last and its number is the higher. */
  lemma {:induction false} BackwardTable(files: Files)
    requires var sink := Run(Sink("s", [], 1, []), BackwardEvents());
      SegmentName("s") in files && files[SegmentName("s")] == sink.file
    ensures var table, request := Run(Sink("s", [], 1, []), BackwardEvents()).table, OneRowRequest("s", None);
      var all := View(files, table, request, SQLITE_MAX_TIME_MS);
      && Whole(files, QueriedBatches(table, request, SQLITE_MAX_TIME_MS))
      && |all| == 2 && all[0].seqNo == 2 && all[1].seqNo == 1
  {
    hide *;
    BackwardIsStorable();
    var rows := RunTable("s", [], [], BackwardEvents(), files);
    BackwardRun();
    InsertedRows(rows);
    DescendsCounts(files, rows);
    OneRowViewsAll(files, Run(Sink("s", [], 1, []), BackwardEvents()).table, "s", rows);
    TwoBatches(files, Inserted(rows));
  }

  lemma {:induction false} BackwardIsStorable()
    ensures Storable(BackwardEvents()) && Ordered([])
  {
    SmallBatch("one");
    SmallBatch("two");
    hide BatchBytes, NoLineFeeds;
    assert forall event <- BackwardEvents() :: event == BackwardEvents()[0] || event == BackwardEvents()[1];
  }

  lemma {:induction false} BackwardRun()
    ensures var table := Run(Sink("s", [], 1, []), BackwardEvents()).table;
      && |table| == 2 && Filter(table, OfStream("s")) == table
      && table[0].firstSeq == 1 && table[0].lineCount == 1 && table[1].firstSeq == 2 && table[1].lineCount == 1
  {
    hide BatchBytes, LevelSummary;
    var first, events := Sink("s", [], 1, []), BackwardEvents();
    var second := Step(first, events[0]);
    var third := Step(second, events[1]);
    assert events[1..][0] == events[1] && events[1..][1..] == [];
    assert Run(first, events) == third;
    var table := third.table;
    assert second.table == [BatchRow(first, events[0].job)];
    assert second.table[1..] == [] && table == [table[0], table[1]];
    FilterAll(table, OfStream("s"));
  }

  lemma {:induction false} DescendsCounts(files: Files, rows: seq<MetadataRow>)
    requires Descends(files, rows)
    ensures forall row <- rows :: |BatchRows(files, row)| == row.lineCount
  {
  }

  lemma {:induction false} TwoBatches(files: Files, table: seq<MetadataRow>)
    requires |table| == 2 && table[0].firstSeq == 1 && table[0].lineCount == 1
    requires table[1].firstSeq == 2 && table[1].lineCount == 1
    requires forall row <- table :: |BatchRows(files, row)| == row.lineCount
    ensures var all := AllRows(files, table); |all| == 2 && all[0].seqNo == 2 && all[1].seqNo == 1
  {
    hide BatchRows;
    assert table[0] in table && table[1] in table;
    FirstRow(files, table[0]);
    FirstRow(files, table[1]);
    assert AllRows(files, table[1..][1..]) == [];
    assert AllRows(files, table) == BatchRows(files, table[1]) + BatchRows(files, table[0]);
  }

  /**
    A fresh sink wrote them. The queries of its stream for everything, one row a page, come to their
    end without the second row.
    */
  lemma {:induction false} BackwardClockLosesRow(files: Files, engine: RegexEngine)
    returns (pages: seq<PageQuery>, lost: QueryRow)
    requires var sink := Run(Sink("s", [], 1, []), BackwardEvents());
      SegmentName("s") in files && files[SegmentName("s")] == sink.file
    ensures var table, request := Run(Sink("s", [], 1, []), BackwardEvents()).table, OneRowRequest("s", None);
      && QueryRun(files, table, request, SQLITE_MAX_TIME_MS, engine, pages)
      && lost in View(files, table, request, SQLITE_MAX_TIME_MS) && lost !in JoinPages(RowsByPage(pages))
  {
    hide Run, QueryRun, View, QueriedBatches, Whole, Ascending;
    var table := Run(Sink("s", [], 1, []), BackwardEvents()).table;
    BackwardTable(files);
    pages := OneRowQueries(files, table, "s", SQLITE_MAX_TIME_MS, engine);
    lost := View(files, table, OneRowRequest("s", None), SQLITE_MAX_TIME_MS)[0];
  }

  lemma {:induction false} SmallBatch(line: string)
    requires |line| == 3 && '\n' !in line
    ensures NoLineFeeds([line]) && |BatchBytes([line])| <= MAX_SEGMENT_READ_BYTES
  {
    assert Written([line][1..]) == "" && |Written([line])| == 4;
    EncodedLength(Written([line]));
  }
}
