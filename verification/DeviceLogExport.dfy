/** Exporting a query: the loop that follows the cursor of whatever answers it and writes every page. */
module DeviceLogExport {
  import opened Sequences
  import opened Utf8
  import opened DeviceLogLine
  import opened DeviceLogSegment
  import opened DeviceLogQuery
  import opened DeviceLogPruning
  import opened DeviceLogPaging
  import opened DeviceLogPages

  const EXPORT_MAX_PAGES: nat := 10_000

  datatype ExportError = QueryFailed(message: string) | CursorStalled | TooManyPages | TooLarge

  function RowsText(rows: seq<QueryRow>): string {
    if rows == [] then "" else rows[0].raw + "\n" + RowsText(rows[1..])
  }

  /** Pages are written newest first. */
  function PagesText(pages: seq<Response>): string {
    if pages == [] then "" else PagesText(pages[..|pages| - 1]) + RowsText(pages[|pages| - 1].rows)
  }

  predicate Fits(text: string, capacity: Option<nat>) {
    capacity.Some? ==> |Encode(text)| <= capacity.value
  }

  // ----- The loop, over any source of pages -----

  /** What answers the calls: the call's number and its request decide the answer. */
  type PageSource = (nat, Request) -> Result<Response, string>

  /** The request of the `k`-th call: the cursor is the one of the answer before. */
  function Asked(source: PageSource, request: Request, k: nat): Request {
    if k == 0 then request
    else
      var before := Asked(source, request, k - 1);
      match source(k - 1, before)
      case Ok(response) => NextRequest(before, response)
      case Err(_) => before
  }

  function Answer(source: PageSource, request: Request, k: nat): Result<Response, string> {
    source(k, Asked(source, request, k))
  }

  ghost predicate Fetched(source: PageSource, request: Request, pages: seq<Response>) {
    forall k | 0 <= k < |pages| :: Answer(source, request, k) == Ok(pages[k])
  }

  /** Every page has a cursor, and not the one of the page before. */
  predicate MovesOn(pages: seq<Response>) {
    forall k | 0 <= k < |pages| ::
      pages[k].nextCursorSeq.Some? && (k > 0 ==> pages[k].nextCursorSeq != pages[k - 1].nextCursorSeq)
  }

  /** The last page repeats the cursor of the one before. */
  predicate Stalls(pages: seq<Response>) {
    && |pages| > 1 && pages[|pages| - 1].nextCursorSeq.Some?
    && pages[|pages| - 1].nextCursorSeq == pages[|pages| - 2].nextCursorSeq
  }

  /** What an export of these pages comes to. */
  ghost predicate ExportOutcome(
      source: PageSource, request: Request, capacity: Option<nat>, pages: seq<Response>,
      result: Result<string, ExportError>)
  {
    && Fetched(source, request, pages) && |pages| <= EXPORT_MAX_PAGES
    && match result
       case Err(QueryFailed(message)) =>
         && MovesOn(pages) && Fits(PagesText(pages), capacity)
         && |pages| < EXPORT_MAX_PAGES && Answer(source, request, |pages|) == Err(message)
       case Err(TooManyPages) =>
         MovesOn(pages) && Fits(PagesText(pages), capacity) && |pages| == EXPORT_MAX_PAGES
       case Err(TooLarge) => GotTo(pages, capacity) && !Fits(PagesText(pages), capacity)
       case Err(CursorStalled) => GotTo(pages, capacity) && Fits(PagesText(pages), capacity) && Stalls(pages)
       case Ok(text) =>
         && GotTo(pages, capacity) && text == PagesText(pages) && Fits(text, capacity)
         && pages[|pages| - 1].nextCursorSeq.None?
  }

  /** The last page was asked for: those before it fit and moved on. */
  predicate GotTo(pages: seq<Response>, capacity: Option<nat>) {
    pages != [] && MovesOn(pages[..|pages| - 1]) && Fits(PagesText(pages[..|pages| - 1]), capacity)
  }

  lemma {:induction false} TextOneMore(pages: seq<Response>, page: Response)
    ensures PagesText(pages + [page]) == PagesText(pages) + RowsText(page.rows)
    ensures (pages + [page])[..|pages|] == pages
  {
    hide RowsText;
    assert (pages + [page])[..|pages|] == pages;
  }

  lemma {:induction false} FetchedOneMore(source: PageSource, request: Request, pages: seq<Response>, page: Response)
    requires Fetched(source, request, pages) && Answer(source, request, |pages|) == Ok(page)
    ensures Fetched(source, request, pages + [page])
    ensures Asked(source, request, |pages| + 1) == NextRequest(Asked(source, request, |pages|), page)
  {
  }

  /** Writes page after page until the cursor is absent; `capacity` bounds the bytes the writer takes. */
  method ExportQueryPagesToWriter(initial: Request, source: PageSource, capacity: Option<nat>)
    returns (result: Result<string, ExportError>, ghost pages: seq<Response>)
    ensures ExportOutcome(source, initial, capacity, pages, result)
  {
    hide PagesText, RowsText, Answer, Asked, Fetched;
    var request, written, previousCursor: Option<nat> := initial, "", None;
    pages := [];
    ExportStarts(source, initial, capacity);
    for page := 0 to EXPORT_MAX_PAGES
      invariant |pages| == page && request == Asked(source, initial, page)
      invariant Fetched(source, initial, pages) && MovesOn(pages)
      invariant written == PagesText(pages) && Fits(written, capacity)
      invariant previousCursor == if page == 0 then None else pages[page - 1].nextCursorSeq
    {
      var answer := source(page, request);
      assert answer == Answer(source, initial, page) by { AnswerIs(source, initial, page); }
      if answer.Err? {
        return Err(QueryFailed(answer.error)), pages;
      }
      var response := answer.value;
      TextOneMore(pages, response);
      FetchedOneMore(source, initial, pages, response);
      pages := pages + [response];
      written := written + RowsText(response.rows);
      if !Fits(written, capacity) {
        return Err(TooLarge), pages;
      }
      if response.nextCursorSeq.None? {
        return Ok(written), pages;
      }
      if previousCursor == response.nextCursorSeq {
        return Err(CursorStalled), pages;
      }
      previousCursor := response.nextCursorSeq;
      request := NextRequest(request, response);
    }
    return Err(TooManyPages), pages;
  }

  lemma {:induction false} ExportStarts(source: PageSource, request: Request, capacity: Option<nat>)
    ensures Asked(source, request, 0) == request && Fetched(source, request, [])
    ensures PagesText([]) == "" && Fits("", capacity)
  {
  }

  lemma {:induction false} AnswerIs(source: PageSource, request: Request, k: nat)
    ensures Answer(source, request, k) == source(k, Asked(source, request, k))
  {
  }

  lemma {:induction false} FetchedAlike(
      source: PageSource, request: Request, pages: seq<Response>, others: seq<Response>)
    requires Fetched(source, request, pages) && Fetched(source, request, others) && |pages| <= |others|
    ensures pages <= others
  {
    hide Answer;
    forall k | 0 <= k < |pages| ensures pages[k] == others[k] {
      assert Answer(source, request, k) == Ok(pages[k]);
    }
  }

  /** The source decides the result. */
  lemma {:induction false} ResultIsDetermined(
      source: PageSource, request: Request, capacity: Option<nat>, pages: seq<Response>, others: seq<Response>,
      result: Result<string, ExportError>, other: Result<string, ExportError>)
    requires ExportOutcome(source, request, capacity, pages, result)
    requires ExportOutcome(source, request, capacity, others, other) && |pages| <= |others|
    ensures pages == others && result == other
  {
    hide Answer, PagesText, Fits;
    FetchedAlike(source, request, pages, others);
    if |pages| < |others| {
      assert Answer(source, request, |pages|) == Ok(others[|pages|]);
      assert others[..|pages|] == pages;
      PassedBy(source, request, capacity, others, other, |pages|);
    }
  }

  /** An export got past each page before its last. */
  lemma {:induction false} PassedBy(
      source: PageSource, request: Request, capacity: Option<nat>, pages: seq<Response>,
      result: Result<string, ExportError>, n: nat)
    requires ExportOutcome(source, request, capacity, pages, result) && n < |pages|
    ensures MovesOn(pages[..n]) && Fits(PagesText(pages[..n]), capacity)
  {
    hide Answer, PagesText, Encode, Fetched;
    var earlier := pages[..|pages| - 1];
    assert earlier[..n] == pages[..n];
    TextPrefix(pages, n);
    TextPrefix(earlier, n);
  }

  lemma {:induction false} TextPrefix(pages: seq<Response>, n: nat)
    requires n <= |pages|
    ensures |Encode(PagesText(pages[..n]))| <= |Encode(PagesText(pages))|
    decreases |pages|
  {
    hide RowsText, Encode;
    if n < |pages| {
      var earlier := pages[..|pages| - 1];
      TextPrefix(earlier, n);
      assert earlier[..n] == pages[..n];
      EncodeConcat(PagesText(earlier), RowsText(pages[|pages| - 1].rows));
    } else {
      assert pages[..n] == pages;
    }
  }

  // ----- The size of what is written -----

  lemma {:induction false} RowsTextConcat(a: seq<QueryRow>, b: seq<QueryRow>)
    ensures |Encode(RowsText(a + b))| == |Encode(RowsText(a))| + |Encode(RowsText(b))|
  {
    if a == [] {
      assert a + b == b && Encode("") == [];
    } else {
      assert (a + b)[1..] == a[1..] + b;
      RowsTextConcat(a[1..], b);
      EncodeConcat(a[0].raw + "\n", RowsText(a[1..]));
      EncodeConcat(a[0].raw + "\n", RowsText(a[1..] + b));
    }
  }

  function RowsOfResponses(pages: seq<Response>): seq<seq<QueryRow>> {
    if pages == [] then [] else [pages[0].rows] + RowsOfResponses(pages[1..])
  }

  lemma {:induction false} JoinOneMore(pages: seq<seq<QueryRow>>, page: seq<QueryRow>)
    ensures JoinPages(pages + [page]) == page + JoinPages(pages)
  {
    if pages == [] {
      assert (pages + [page])[1..] == [];
    } else {
      assert (pages + [page])[1..] == pages[1..] + [page];
      JoinOneMore(pages[1..], page);
    }
  }

  lemma {:induction false} RowsOneMore(pages: seq<Response>, page: Response)
    ensures RowsOfResponses(pages + [page]) == RowsOfResponses(pages) + [page.rows]
  {
    if pages == [] {
      assert (pages + [page])[1..] == [];
    } else {
      assert (pages + [page])[1..] == pages[1..] + [page];
      RowsOneMore(pages[1..], page);
    }
  }

  /** The pages are as large as their rows in order. */
  lemma {:induction false} TextSize(pages: seq<Response>)
    ensures |Encode(PagesText(pages))| == |Encode(RowsText(JoinPages(RowsOfResponses(pages))))|
  {
    hide RowsText, Encode;
    if pages != [] {
      var earlier, last := pages[..|pages| - 1], pages[|pages| - 1];
      assert pages == earlier + [last];
      TextSize(earlier);
      RowsOneMore(earlier, last);
      JoinOneMore(RowsOfResponses(earlier), last.rows);
      RowsTextConcat(last.rows, JoinPages(RowsOfResponses(earlier)));
      EncodeConcat(PagesText(earlier), RowsText(last.rows));
    } else {
      NoText();
    }
  }

  lemma {:induction false} NoText()
    ensures PagesText([]) == "" && RowsText(JoinPages(RowsOfResponses([]))) == ""
  {
  }

  lemma {:induction false} RowsTextJoin(a: seq<QueryRow>, b: seq<QueryRow>)
    ensures RowsText(a + b) == RowsText(a) + RowsText(b)
  {
    if a == [] {
      assert a + b == b && "" + RowsText(b) == RowsText(b);
    } else {
      assert (a + b)[1..] == a[1..] + b;
      RowsTextJoin(a[1..], b);
    }
  }

  /** What is written is the rows of the pages, page after page. */
  lemma {:induction false} TextAsWritten(pages: seq<Response>)
    ensures PagesText(pages) == RowsText(Flatten(RowsOfResponses(pages)))
  {
    hide RowsText;
    if pages != [] {
      var earlier, last := pages[..|pages| - 1], pages[|pages| - 1];
      assert pages == earlier + [last];
      TextAsWritten(earlier);
      RowsOneMore(earlier, last);
      FlattenConcat(RowsOfResponses(earlier), [last.rows]);
      assert Flatten([last.rows]) == last.rows;
      RowsTextJoin(Flatten(RowsOfResponses(earlier)), last.rows);
    } else {
      NoText();
      assert Flatten(RowsOfResponses([])) == [];
    }
  }

  lemma {:induction false} SuffixSize(suffix: seq<QueryRow>, whole: seq<QueryRow>)
    requires IsSuffix(suffix, whole)
    ensures |Encode(RowsText(suffix))| <= |Encode(RowsText(whole))|
  {
    assert whole == whole[..|whole| - |suffix|] + suffix;
    RowsTextConcat(whole[..|whole| - |suffix|], suffix);
  }

  // ----- Exporting from a store -----

  function Responses(pages: seq<PageQuery>): seq<Response> {
    if pages == [] then [] else [pages[0].response] + Responses(pages[1..])
  }

  lemma {:induction false} ResponsesAre(pages: seq<PageQuery>)
    ensures |Responses(pages)| == |pages| && RowsOfResponses(Responses(pages)) == RowsByPage(pages)
    ensures forall i | 0 <= i < |pages| :: Responses(pages)[i] == pages[i].response
  {
    if pages != [] {
      ResponsesAre(pages[1..]);
      assert ([pages[0].response] + Responses(pages[1..]))[1..] == Responses(pages[1..]);
    }
  }

  /** Each cursor of a store's pages lies strictly below the one before. */
  lemma {:induction false} CursorsDescend(
      request: Request, engine: RegexEngine, matcher: TextMatcher, pages: seq<PageQuery>)
    requires PagesOf(request, engine, pages) && |pages| > 1
    requires BuildMatcher(request, engine) == Ok(matcher) && PruneSafe(request)
    ensures var last, before := pages[|pages| - 1].response.nextCursorSeq, pages[|pages| - 2].response.nextCursorSeq;
      last.Some? ==> before.Some? && last.value < before.value
    decreases |pages|
  {
    hide Answered, SoundAt, BuildMatcher, PruneSafe, Succeeds;
    var next := NextRequest(request, pages[0].response);
    SameButCursor(request, pages[0].response.nextCursorSeq, pages[0], engine);
    if |pages| > 2 {
      CursorsDescend(next, engine, matcher, pages[1..]);
    } else {
      LowerCursor(next, engine, matcher, pages[1]);
    }
  }

  lemma {:induction false} LowerCursor(request: Request, engine: RegexEngine, matcher: TextMatcher, page: PageQuery)
    requires Answered(request, engine, page) && SoundAt(page, request.streamId)
    requires BuildMatcher(request, engine) == Ok(matcher) && PruneSafe(request)
    ensures page.response.nextCursorSeq.Some? && request.cursorSeq.Some? ==>
      page.response.nextCursorSeq.value < request.cursorSeq.value
  {
    hide Answered, BuildMatcher, PruneSafe, IsPage, Ascending, ViewOf, SoundAt, Expected, InScope;
    AnsweredIsPage(request, engine, matcher, page);
    ViewAscends(request, page);
    PageAdvances(
      ViewOf(request, page), request, Rules(request, matcher, page.expired), page.scanned, page.response);
  }

  /**
    An export whose calls are answered by queries of a store, while stale files are cleaned up and
    later batches are written. Where it succeeds it wrote, page by page, matching rows of what the
    first page could see, among them all that stayed in the time range; its cursor never stalls; it
    runs out of pages only over as many rows in scope; and its text is too large only if that of all
    matching rows is.
    */
  lemma {:induction false} ExportOfStore(
      source: PageSource, request: Request, capacity: Option<nat>, result: Result<string, ExportError>,
      engine: RegexEngine, matcher: TextMatcher, pages: seq<PageQuery>)
    requires ExportOutcome(source, request, capacity, Responses(pages), result)
    requires PagesOf(request, engine, pages) && forall page <- pages :: page.cancel.None?
    requires BuildMatcher(request, engine) == Ok(matcher) && PruneSafe(request)
    ensures var first, last := pages[0], pages[|pages| - 1];
      var joined, expected := JoinPages(RowsByPage(pages)), Expected(ViewOf(request, first), request, matcher);
      match result
      case Ok(text) =>
        && text == PagesText(Responses(pages)) && IsSuffix(joined, expected)
        && IsSuffix(Expected(StillInRange(request, first, last.nowMs), request, matcher), joined)
        && (NothingDroppedOut(request, first, last.nowMs) ==>
              joined == expected && Fits(RowsText(expected), capacity))
      case Err(CursorStalled) => false
      case Err(TooManyPages) => |Filter(ViewOf(request, first), InScope(request))| >= EXPORT_MAX_PAGES
      case Err(TooLarge) => !Fits(RowsText(expected), capacity)
      case Err(QueryFailed(message)) => Answer(source, request, |pages|) == Err(message)
  {
    hide *;
    FirstAndLast(request, engine, pages);
    ResponsesAre(pages);
    NoneCancels(pages);
    PagesReturnWhatTheFirstCouldSee(request, engine, matcher, pages);
    var responses := Responses(pages);
    var joined := JoinPages(RowsByPage(pages));
    var expected := Expected(ViewOf(request, pages[0]), request, matcher);
    TextSize(responses);
    SuffixSize(joined, expected);
    OutcomeParts(source, request, capacity, responses, result);
    FitsIs(PagesText(responses), RowsText(joined), capacity);
    FitsIs(RowsText(expected), RowsText(joined), capacity);
    if result == Err(CursorStalled) {
      CursorsDescend(request, engine, matcher, pages);
    }
  }

  // ----- Any finished pages can be exported -----

  lemma {:induction false} PagesBefore(request: Request, engine: RegexEngine, pages: seq<PageQuery>, n: nat)
    requires PagesOf(request, engine, pages) && 0 < n <= |pages|
    ensures PagesOf(request, engine, pages[..n])
    ensures forall i | 0 <= i < |pages| - 1 :: pages[i].response.nextCursorSeq.Some?
    decreases |pages|
  {
    hide Answered, SoundAt, Succeeds;
    if |pages| > 1 {
      PagesBefore(NextRequest(request, pages[0].response), engine, pages[1..], if n > 1 then n - 1 else 1);
      assert pages[..n][1..] == pages[1..][..n - 1];
      forall i | 0 <= i < |pages| - 1 ensures pages[i].response.nextCursorSeq.Some? {
        assert i > 0 ==> pages[i] == pages[1..][i - 1];
      }
    } else {
      assert pages[..n] == pages;
    }
  }

  lemma {:induction false} PagesMoveOn(
      request: Request, engine: RegexEngine, matcher: TextMatcher, pages: seq<PageQuery>, n: nat)
    requires PagesOf(request, engine, pages) && n < |pages|
    requires BuildMatcher(request, engine) == Ok(matcher) && PruneSafe(request)
    ensures n < |Responses(pages)| && MovesOn(Responses(pages)[..n])
  {
    hide PagesOf, BuildMatcher, PruneSafe, Responses;
    ResponsesAre(pages);
    PagesBefore(request, engine, pages, 1);
    var responses := Responses(pages);
    forall k | 0 < k < n ensures responses[k].nextCursorSeq != responses[k - 1].nextCursorSeq {
      PagesBefore(request, engine, pages, k + 1);
      CursorsDescend(request, engine, matcher, pages[..k + 1]);
    }
  }

  /** Answers given by their number. */
  function SourceOf(pages: seq<Response>): PageSource {
    (k: nat, request: Request) => if k < |pages| then Ok(pages[k]) else Err("")
  }

  lemma {:induction false} SourceFetches(request: Request, pages: seq<Response>)
    ensures Fetched(SourceOf(pages), request, pages)
  {
  }

  /** The pages of a store, to their end and not too many, are an export that succeeds. */
  lemma {:induction false} PagesExport(
      request: Request, engine: RegexEngine, matcher: TextMatcher, pages: seq<PageQuery>)
    requires PagesOf(request, engine, pages) && pages[|pages| - 1].response.nextCursorSeq.None?
    requires |pages| <= EXPORT_MAX_PAGES && BuildMatcher(request, engine) == Ok(matcher) && PruneSafe(request)
    ensures var responses := Responses(pages);
      ExportOutcome(SourceOf(responses), request, None, responses, Ok(PagesText(responses)))
  {
    hide PagesOf, BuildMatcher, PruneSafe, Fetched, PagesText, Responses, MovesOn, SourceOf;
    FirstAndLast(request, engine, pages);
    ResponsesAre(pages);
    SourceFetches(request, Responses(pages));
    PagesMoveOn(request, engine, matcher, pages, |pages| - 1);
  }

  lemma {:induction false} NoneCancels(pages: seq<PageQuery>)
    requires forall page <- pages :: page.cancel.None?
    ensures NoPageCancelled(pages)
  {
  }

  lemma {:induction false} FitsIs(text: string, other: string, capacity: Option<nat>)
    ensures |Encode(other)| <= |Encode(text)| && Fits(text, capacity) ==> Fits(other, capacity)
    ensures |Encode(other)| == |Encode(text)| && Fits(other, capacity) ==> Fits(text, capacity)
  {
    hide Encode;
  }

  lemma {:induction false} OutcomeParts(
      source: PageSource, request: Request, capacity: Option<nat>, pages: seq<Response>,
      result: Result<string, ExportError>)
    requires ExportOutcome(source, request, capacity, pages, result) && pages != []
    ensures var last := pages[|pages| - 1].nextCursorSeq;
      match result
      case Ok(text) => text == PagesText(pages) && Fits(text, capacity) && last.None?
      case Err(QueryFailed(message)) => Answer(source, request, |pages|) == Err(message)
      case Err(TooManyPages) => |pages| == EXPORT_MAX_PAGES && last.Some?
      case Err(TooLarge) => !Fits(PagesText(pages), capacity)
      case Err(CursorStalled) => |pages| > 1 && last.Some? && pages[|pages| - 2].nextCursorSeq == last
  {
    hide Fetched, PagesText, Answer, Fits;
  }

  /** A call that a query of the store failed: its pattern does not compile, or a batch in its range cannot be read. */
  lemma {:induction false} FailedExport(
      source: PageSource, request: Request, engine: RegexEngine, k: nat, page: PageQuery, message: string)
    requires ComesTo(Asked(source, request, k), engine, page, Answer(source, request, k))
    requires Answer(source, request, k) == Err(message)
    ensures BuildMatcher(request, engine) == Err(message)
         || exists batch <- QueriedBatches(page.batches, request, page.nowMs) :: BatchLines(page.files, batch) == Err(Fatal)
  {
    hide BuildMatcher, BatchLines, Answer, Asked;
    AskedIs(source, request, k);
    QuerySame(page, request, Asked(source, request, k).cursorSeq, engine);
  }

  lemma {:induction false} AskedIs(source: PageSource, request: Request, k: nat)
    ensures Asked(source, request, k) == request.(cursorSeq := Asked(source, request, k).cursorSeq)
  {
    if k > 0 {
      AskedIs(source, request, k - 1);
    }
  }

  lemma {:induction false} QuerySame(page: PageQuery, request: Request, cursor: Option<nat>, engine: RegexEngine)
    ensures var current := request.(cursorSeq := cursor);
      && QueriedBatches(page.batches, current, page.nowMs) == QueriedBatches(page.batches, request, page.nowMs)
      && BuildMatcher(current, engine) == BuildMatcher(request, engine)
  {
    hide Filter;
  }
}
