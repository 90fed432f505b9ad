/**
  Following the continuation cursor: the pages of a query, put back together, are the plain filter
  over every persisted row.
  */
module DeviceLogPaging {
  import opened Sequences
  import opened DeviceLogLine
  import opened DeviceLogQuery

  // ----- Rows in sequence order -----

  ghost predicate Ascending(rows: seq<QueryRow>) {
    rows == [] || ((forall row <- rows[1..] :: rows[0].seqNo < row.seqNo) && Ascending(rows[1..]))
  }

  lemma {:induction false} AscendingParts(a: seq<QueryRow>, b: seq<QueryRow>)
    ensures Ascending(a + b)
       <==> Ascending(a) && Ascending(b) && forall x <- a, y <- b :: x.seqNo < y.seqNo
  {
    if a == [] {
      assert a + b == b;
    } else {
      assert (a + b)[1..] == a[1..] + b;
      AscendingParts(a[1..], b);
      assert a == [a[0]] + a[1..];
      if Ascending(a + b) {
        forall x <- a, y <- b ensures x.seqNo < y.seqNo {
          assert y in a[1..] + b;
        }
      }
    }
  }

  lemma {:induction false} AscendingFilter(rows: seq<QueryRow>, keep: QueryRow -> bool)
    requires Ascending(rows)
    ensures Ascending(Filter(rows, keep))
  {
    if rows != [] {
      AscendingFilter(rows[1..], keep);
      FilterMember(rows[1..], keep);
      if keep(rows[0]) {
        assert Filter(rows, keep)[1..] == Filter(rows[1..], keep);
      }
    }
  }

  lemma {:induction false} ReverseFromEnd<T>(init: seq<T>, last: T)
    ensures Reverse(init + [last]) == [last] + Reverse(init)
  {
    if init != [] {
      assert (init + [last])[1..] == init[1..] + [last];
      ReverseFromEnd(init[1..], last);
    } else {
      assert (init + [last])[1..] == [];
    }
  }

  lemma {:induction false} InsertLargest(sorted: seq<QueryRow>, row: QueryRow)
    requires forall x <- sorted :: x.seqNo < row.seqNo
    ensures InsertBySeq(sorted, row) == sorted + [row]
  {
    if sorted != [] {
      InsertLargest(sorted[1..], row);
      assert sorted == [sorted[0]] + sorted[1..];
    }
  }

  /** Sorting rows that were collected newest first puts them back in order. */
  lemma {:induction false} SortReversed(rows: seq<QueryRow>)
    requires Ascending(rows)
    ensures SortBySeq(Reverse(rows)) == rows
    decreases |rows|
  {
    if rows != [] {
      var init, last := rows[..|rows| - 1], rows[|rows| - 1];
      assert rows == init + [last];
      AscendingParts(init, [last]);
      SortReversed(init);
      ReverseFromEnd(init, last);
      assert ([last] + Reverse(init))[1..] == Reverse(init);
      assert last in [last];
      InsertLargest(init, last);
    }
  }

  function WithSeq(seqNo: nat): QueryRow -> bool {
    (row: QueryRow) => row.seqNo == seqNo
  }

  /** Sorting keeps the rows of each number as they are and in their order. */
  lemma {:induction false} SortIsStable(rows: seq<QueryRow>, seqNo: nat)
    ensures Filter(SortBySeq(rows), WithSeq(seqNo)) == Filter(rows, WithSeq(seqNo))
    ensures forall i, j | 0 <= i < j < |SortBySeq(rows)| :: SortBySeq(rows)[i].seqNo <= SortBySeq(rows)[j].seqNo
  {
    if rows != [] {
      SortIsStable(rows[1..], seqNo);
      InsertIsStable(SortBySeq(rows[1..]), rows[0], seqNo);
    }
  }

  lemma {:induction false} InsertIsStable(sorted: seq<QueryRow>, row: QueryRow, seqNo: nat)
    requires forall i, j | 0 <= i < j < |sorted| :: sorted[i].seqNo <= sorted[j].seqNo
    ensures var more := InsertBySeq(sorted, row);
      && Filter(more, WithSeq(seqNo)) == Filter([row], WithSeq(seqNo)) + Filter(sorted, WithSeq(seqNo))
      && (forall x <- more :: x == row || x in sorted)
      && forall i, j | 0 <= i < j < |more| :: more[i].seqNo <= more[j].seqNo
  {
    if sorted == [] || row.seqNo <= sorted[0].seqNo {
      assert ([row] + sorted)[1..] == sorted;
    } else {
      var rest := InsertBySeq(sorted[1..], row);
      InsertIsStable(sorted[1..], row, seqNo);
      assert ([sorted[0]] + rest)[1..] == rest;
    }
  }

  // ----- One page -----

  /** The specification: every row in scope that the text matcher accepts. */
  function Expected(all: seq<QueryRow>, request: Request, matcher: TextMatcher): seq<QueryRow> {
    Filter(Filter(all, InScope(request)), MatchesText(matcher))
  }

  ghost predicate IsPage(
      all: seq<QueryRow>, request: Request, rules: ScanRules, scanned: seq<QueryRow>, response: Response)
  {
    && Stopped(rules, Filter(all, InScope(request)), scanned, response.stopReason)
    && response == Respond(rules, scanned, response.stopReason)
  }

  /** The request for the page after `response`. */
  function NextRequest(request: Request, response: Response): Request {
    request.(cursorSeq := response.nextCursorSeq)
  }

  lemma {:induction false} RespondedPage(rules: ScanRules, scanned: seq<QueryRow>, reason: StopReason)
    requires Ascending(scanned) && Paused(rules, scanned, reason) && rules.limit > 0
    ensures var response := Respond(rules, scanned, reason);
      && response.rows == Filter(scanned, MatchesText(rules.matcher))
      && response.nextCursorSeq == (if reason == Complete || reason == Cancelled then None else FirstSeq(scanned))
  {
    hide InScope, MatchesText;
    var accepts := MatchesText(rules.matcher);
    var matches := Filter(scanned, accepts);
    AscendingFilter(scanned, accepts);
    SortReversed(matches);
    FewMatches(rules, scanned, reason);
    if reason == Limit {
      assert accepts(scanned[0]);
      assert matches[0] == scanned[0];
    }
  }

  /** The limit is reached exactly when the scan stops for it. */
  lemma {:induction false} FewMatches(rules: ScanRules, scanned: seq<QueryRow>, reason: StopReason)
    requires Paused(rules, scanned, reason) && rules.limit > 0
    ensures reason == Limit <==> |Filter(scanned, MatchesText(rules.matcher))| >= rules.limit
  {
    hide MatchesText;
    if scanned != [] {
      var accepts := MatchesText(rules.matcher);
      FewMatches(rules, scanned[1..], Complete);
      assert accepts(scanned[0]) ==> Filter(scanned, accepts) == [scanned[0]] + Filter(scanned[1..], accepts);
    }
  }

  lemma {:induction false} BelowCursor(all: seq<QueryRow>, request: Request, cursor: nat, rest: seq<QueryRow>, scanned: seq<QueryRow>)
    requires Ascending(all) && scanned != [] && scanned[0].seqNo == cursor
    requires Filter(all, InScope(request)) == rest + scanned
    ensures request.cursorSeq.Some? ==> cursor < request.cursorSeq.value
    ensures Filter(all, InScope(request.(cursorSeq := Some(cursor)))) == rest
  {
    hide MatchesStructuredFilters, Filter;
    var here, next := InScope(request), InScope(request.(cursorSeq := Some(cursor)));
    AscendingFilter(all, here);
    AscendingParts(rest, scanned);
    FilterMember(all, here);
    assert scanned[0] in rest + scanned;
    var below := (row: QueryRow) => row.seqNo < cursor;
    forall row <- all ensures next(row) == (here(row) && below(row)) {
      assert MatchesStructuredFilters(row, request.(cursorSeq := Some(cursor))) == MatchesStructuredFilters(row, request)
        by { SameFilters(row, request, Some(cursor)); }
    }
    FilterTwice(all, here, below, next);
    FilterConcat(rest, scanned, below);
    assert scanned[0] in scanned;
    FilterAll(rest, below);
    forall row <- scanned ensures !below(row) {
      assert scanned == [scanned[0]] + scanned[1..];
    }
    FilterNone(scanned, below);
  }

  lemma {:induction false} SameFilters(row: QueryRow, request: Request, cursor: Option<nat>)
    ensures MatchesStructuredFilters(row, request.(cursorSeq := cursor)) == MatchesStructuredFilters(row, request)
  {
  }

  /**
    A page with a continuation cursor is exactly the newest part of what was asked for, the cursor
    lies strictly below the old one, and the next request asks for exactly the rest. A page without
    one is all that was asked for, unless it was cancelled.
    */
  lemma {:induction false} PageAdvances(
      all: seq<QueryRow>, request: Request, rules: ScanRules, scanned: seq<QueryRow>, response: Response)
    requires Ascending(all) && rules.limit > 0
    requires IsPage(all, request, rules, scanned, response)
    ensures response.nextCursorSeq.Some? <==> response.stopReason in {Limit, ScanBudget, Deadline}
    ensures response.nextCursorSeq.Some? ==>
      && (request.cursorSeq.Some? ==> response.nextCursorSeq.value < request.cursorSeq.value)
      && Expected(all, request, rules.matcher)
         == Expected(all, NextRequest(request, response), rules.matcher) + response.rows
      && |Filter(all, InScope(NextRequest(request, response)))| < |Filter(all, InScope(request))|
    ensures response.stopReason == Complete ==> response.rows == Expected(all, request, rules.matcher)
    ensures IsSuffix(response.rows, Expected(all, request, rules.matcher))
  {
    hide InScope, MatchesText, Verdict, RanThrough;
    var candidates := Filter(all, InScope(request));
    var rest := candidates[..|candidates| - |scanned|];
    assert candidates == rest + scanned;
    AscendingFilter(all, InScope(request));
    AscendingParts(rest, scanned);
    RespondedPage(rules, scanned, response.stopReason);
    var accepts := MatchesText(rules.matcher);
    FilterConcat(rest, scanned, accepts);
    assert Expected(all, request, rules.matcher) == Filter(rest, accepts) + response.rows;
    if response.nextCursorSeq.Some? {
      BelowCursor(all, request, response.nextCursorSeq.value, rest, scanned);
    }
  }

  // ----- All pages -----

  /** Pages come newest first; each page is oldest first. */
  function JoinPages(pages: seq<seq<QueryRow>>): seq<QueryRow> {
    if pages == [] then [] else JoinPages(pages[1..]) + pages[0]
  }

  /**
    What a page may see, when the first page saw `all`: the oldest `gone` rows have dropped out of the
    time range, and newer rows, which the cursor leaves out, have been written.
    */
  ghost predicate Sees(view: seq<QueryRow>, all: seq<QueryRow>, gone: nat, cursor: Option<nat>) {
    && gone <= |all| && all[gone..] <= view
    && forall row <- view[|all| - gone..] :: cursor.Some? && cursor.value <= row.seqNo
  }

  /** One page of a run: what it saw, how deadline and cancellation behaved, what was scanned, what came back. */
  datatype PageStep = PageStep(
    view: seq<QueryRow>, gone: nat, expired: nat -> bool, cancel: Option<nat -> bool>,
    scanned: seq<QueryRow>, response: Response)

  ghost predicate CancelledByPoll(step: PageStep) {
    step.response.stopReason == Cancelled ==> exists p: nat :: PollsCancelled(step.cancel, p)
  }

  /** No page is superseded. */
  ghost predicate NeverCancelled(steps: seq<PageStep>) {
    forall step <- steps, p: nat :: !PollsCancelled(step.cancel, p)
  }

  /** A run follows the cursor, at most until it is absent, over rows of which the oldest `gone` are out of range at first. */
  ghost predicate FollowsCursor(
      all: seq<QueryRow>, gone: nat, request: Request, matcher: TextMatcher, steps: seq<PageStep>)
    decreases |steps|
  {
    && steps != []
    && var step := steps[0];
       && gone <= step.gone && Sees(step.view, all, step.gone, request.cursorSeq)
       && IsPage(step.view, request, Rules(request, matcher, step.expired), step.scanned, step.response)
       && CancelledByPoll(step)
       && if step.response.nextCursorSeq.None? then |steps| == 1
          else |steps| == 1 || FollowsCursor(all, step.gone, NextRequest(request, step.response), matcher, steps[1..])
  }

  /** The cursor is absent at last. */
  predicate Finished(steps: seq<PageStep>) {
    steps != [] && steps[|steps| - 1].response.nextCursorSeq.None?
  }

  ghost predicate ViewsAscend(steps: seq<PageStep>) {
    forall step <- steps :: Ascending(step.view)
  }

  function RowsOf(steps: seq<PageStep>): seq<seq<QueryRow>> {
    if steps == [] then [] else [steps[0].response.rows] + RowsOf(steps[1..])
  }

  lemma {:induction false} FilterImplied<T>(s: seq<T>, p: T -> bool, q: T -> bool)
    requires forall x <- s :: p(x) ==> q(x)
    ensures |Filter(s, p)| <= |Filter(s, q)|
  {
    if s != [] {
      FilterImplied(s[1..], p, q);
    }
  }

  function Matching(request: Request, matcher: TextMatcher): QueryRow -> bool {
    (row: QueryRow) => InScope(request)(row) && MatchesText(matcher)(row)
  }

  lemma {:induction false} ExpectedOnce(rows: seq<QueryRow>, request: Request, matcher: TextMatcher)
    ensures Expected(rows, request, matcher) == Filter(rows, Matching(request, matcher))
  {
    hide InScope, MatchesText;
    FilterTwice(rows, InScope(request), MatchesText(matcher), Matching(request, matcher));
  }

  lemma {:induction false} ExpectedConcat(a: seq<QueryRow>, b: seq<QueryRow>, request: Request, matcher: TextMatcher)
    ensures Expected(a + b, request, matcher) == Expected(a, request, matcher) + Expected(b, request, matcher)
  {
    hide InScope, MatchesText;
    FilterConcat(a, b, InScope(request));
    FilterConcat(Filter(a, InScope(request)), Filter(b, InScope(request)), MatchesText(matcher));
  }

  lemma {:induction false} MatchingBelow(row: QueryRow, request: Request, cursor: nat, matcher: TextMatcher)
    requires request.cursorSeq.Some? ==> cursor <= request.cursorSeq.value
    requires Matching(request.(cursorSeq := Some(cursor)), matcher)(row)
    ensures Matching(request, matcher)(row)
  {
    hide MatchesText, MatchesStructuredFilters;
    var below := request.(cursorSeq := Some(cursor));
    assert InScope(below)(row) && MatchesText(matcher)(row);
    SameFilters(row, request, Some(cursor));
  }

  /** Below a lower cursor there is less to expect. */
  lemma {:induction false} ExpectedShrinks(rows: seq<QueryRow>, request: Request, cursor: nat, matcher: TextMatcher)
    requires request.cursorSeq.Some? ==> cursor <= request.cursorSeq.value
    ensures |Expected(rows, request.(cursorSeq := Some(cursor)), matcher)| <= |Expected(rows, request, matcher)|
  {
    hide Matching, Expected;
    var below := request.(cursorSeq := Some(cursor));
    forall row <- rows ensures Matching(below, matcher)(row) ==> Matching(request, matcher)(row) {
      if Matching(below, matcher)(row) {
        MatchingBelow(row, request, cursor, matcher);
      }
    }
    ExpectedOnce(rows, below, matcher);
    ExpectedOnce(rows, request, matcher);
    FilterImplied(rows, Matching(below, matcher), Matching(request, matcher));
  }

  /** Rows the cursor leaves out do not count. */
  lemma {:induction false} PageOfKept(
      view: seq<QueryRow>, all: seq<QueryRow>, gone: nat, request: Request)
    requires Sees(view, all, gone, request.cursorSeq)
    ensures Filter(view, InScope(request)) == Filter(all[gone..], InScope(request))
  {
    hide MatchesStructuredFilters;
    var kept, newer := all[gone..], view[|all| - gone..];
    assert view == kept + newer;
    FilterConcat(kept, newer, InScope(request));
    forall row <- newer ensures !InScope(request)(row) {
      assert !MatchesPageScope(row, request);
    }
    FilterNone(newer, InScope(request));
  }

  lemma {:induction false} SuffixTransitive<T>(a: seq<T>, b: seq<T>, c: seq<T>)
    requires IsSuffix(a, b) && IsSuffix(b, c)
    ensures IsSuffix(a, c)
  {
    assert c[|c| - |a|..] == c[|c| - |b|..][|b| - |a|..];
  }

  /** Of two suffixes of one list the shorter is a suffix of the longer. */
  lemma {:induction false} SuffixesNest<T>(a: seq<T>, b: seq<T>, c: seq<T>)
    requires IsSuffix(a, c) && IsSuffix(b, c) && |a| <= |b|
    ensures IsSuffix(a, b)
  {
    assert c[|c| - |a|..] == c[|c| - |b|..][|b| - |a|..];
  }

  lemma {:induction false} SuffixExtends<T>(a: seq<T>, b: seq<T>, more: seq<T>)
    requires IsSuffix(a, b)
    ensures IsSuffix(a + more, b + more)
  {
    assert b == b[..|b| - |a|] + a;
    assert b + more == b[..|b| - |a|] + (a + more);
    assert (b + more)[|b| - |a|..] == a + more;
  }

  lemma {:induction false} ExpectedSuffix(
      all: seq<QueryRow>, gone: nat, further: nat, request: Request, matcher: TextMatcher)
    requires gone <= further <= |all|
    ensures IsSuffix(Expected(all[further..], request, matcher), Expected(all[gone..], request, matcher))
    ensures Expected(all[gone..], request, matcher)
         == Expected(all[gone..further], request, matcher) + Expected(all[further..], request, matcher)
  {
    hide Expected;
    assert all[gone..] == all[gone..further] + all[further..];
    ExpectedConcat(all[gone..further], all[further..], request, matcher);
  }

  function LastGone(steps: seq<PageStep>): nat
    requires steps != []
  {
    steps[|steps| - 1].gone
  }

  lemma {:induction false} GoneGrows(
      all: seq<QueryRow>, gone: nat, request: Request, matcher: TextMatcher, steps: seq<PageStep>)
    requires FollowsCursor(all, gone, request, matcher, steps)
    ensures gone <= steps[0].gone <= LastGone(steps) <= |all|
    decreases |steps|
  {
    hide IsPage;
    if |steps| > 1 {
      GoneGrows(all, steps[0].gone, NextRequest(request, steps[0].response), matcher, steps[1..]);
    }
  }

  /**
    One page put before the pages that follow it. `kept` is what it could still see of the first rows,
    `visible` the part of it that the last page still saw.
    */
  lemma {:induction false} PageBeforeRest(
      all: seq<QueryRow>, gone: nat, last: nat, request: Request, cursor: nat, matcher: TextMatcher,
      rows: seq<QueryRow>, rest: seq<QueryRow>, finished: bool)
    requires gone <= last <= |all| && (request.cursorSeq.Some? ==> cursor <= request.cursorSeq.value)
    requires var next := request.(cursorSeq := Some(cursor));
      && Expected(all[gone..], request, matcher) == Expected(all[gone..], next, matcher) + rows
      && IsSuffix(rest, Expected(all[gone..], next, matcher))
      && (finished ==> IsSuffix(Expected(all[last..], next, matcher), rest))
    ensures IsSuffix(rest + rows, Expected(all[gone..], request, matcher))
    ensures finished ==> IsSuffix(Expected(all[last..], request, matcher), rest + rows)
  {
    hide Expected;
    var next := request.(cursorSeq := Some(cursor));
    SuffixExtends(rest, Expected(all[gone..], next, matcher), rows);
    ExpectedSuffix(all, gone, last, request, matcher);
    ExpectedSuffix(all, gone, last, next, matcher);
    ExpectedShrinks(all[gone..last], request, cursor, matcher);
    if finished {
      SuffixesNest(Expected(all[last..], request, matcher), rest + rows, Expected(all[gone..], request, matcher));
    }
  }

  /**
    For any limit, any scan budget, any pattern of deadlines, and whatever is written between the
    pages: following the cursor returns, once and in order, matching rows among those the first page
    could see, the newest of them first; and once the cursor is absent, among them all that are still
    in range at the last page; so all of them if none dropped out. Every page that is not the last
    takes at least one row in scope.
    */
  lemma {:induction false} PagesAreComplete(
      all: seq<QueryRow>, gone: nat, request: Request, matcher: TextMatcher, steps: seq<PageStep>)
    requires FollowsCursor(all, gone, request, matcher, steps) && ViewsAscend(steps) && NeverCancelled(steps)
    ensures gone <= LastGone(steps) <= |all|
    ensures var pages := JoinPages(RowsOf(steps));
      && IsSuffix(pages, Expected(all[gone..], request, matcher))
      && (Finished(steps) ==> IsSuffix(Expected(all[LastGone(steps)..], request, matcher), pages))
      && (Finished(steps) && LastGone(steps) == gone ==> pages == Expected(all[gone..], request, matcher))
    ensures |steps| <= |Filter(all[gone..], InScope(request))| + if Finished(steps) then 1 else 0
    decreases |steps|
  {
    hide *;
    FirstStep(all, gone, request, matcher, steps);
    var step, last := steps[0], LastGone(steps);
    KeptPageAdvances(all, request, matcher, step);
    ExpectedSuffix(all, gone, step.gone, request, matcher);
    ScopeSuffix(all, gone, step.gone, request);
    var kept, rows := all[step.gone..], step.response.rows;
    var pages := JoinPages(RowsOf(steps));
    if |steps| > 1 {
      var next := NextRequest(request, step.response);
      var rest := JoinPages(RowsOf(steps[1..]));
      PagesAreComplete(all, step.gone, next, matcher, steps[1..]);
      NextRequestIs(request, step.response);
      PageBeforeRest(
        all, step.gone, last, request, step.response.nextCursorSeq.value, matcher, rows, rest, Finished(steps));
      SuffixTransitive(rest + rows, Expected(kept, request, matcher), Expected(all[gone..], request, matcher));
    } else {
      SuffixTransitive(rows, Expected(kept, request, matcher), Expected(all[gone..], request, matcher));
      WholeSuffix(rows);
    }
    if Finished(steps) && last == gone {
      SuffixBothWays(pages, Expected(all[gone..], request, matcher));
    }
  }

  lemma {:induction false} NextRequestIs(request: Request, response: Response)
    ensures NextRequest(request, response) == request.(cursorSeq := response.nextCursorSeq)
  {
  }

  /** The first step of a run, and that the others are a run of their own. */
  lemma {:induction false} FirstStep(
      all: seq<QueryRow>, gone: nat, request: Request, matcher: TextMatcher, steps: seq<PageStep>)
    requires FollowsCursor(all, gone, request, matcher, steps) && ViewsAscend(steps) && NeverCancelled(steps)
    ensures steps != [] && gone <= steps[0].gone <= LastGone(steps) <= |all|
    ensures var step := steps[0];
      && Sees(step.view, all, step.gone, request.cursorSeq) && Ascending(step.view)
      && IsPage(step.view, request, Rules(request, matcher, step.expired), step.scanned, step.response)
      && step.response.stopReason != Cancelled
      && (step.response.nextCursorSeq.None? ==> |steps| == 1)
      && if |steps| == 1 then
           && JoinPages(RowsOf(steps)) == step.response.rows && LastGone(steps) == step.gone
           && (Finished(steps) <==> step.response.nextCursorSeq.None?)
         else
           && FollowsCursor(all, step.gone, NextRequest(request, step.response), matcher, steps[1..])
           && steps[1..] != [] && ViewsAscend(steps[1..]) && NeverCancelled(steps[1..])
           && LastGone(steps[1..]) == LastGone(steps) && (Finished(steps[1..]) <==> Finished(steps))
           && JoinPages(RowsOf(steps)) == JoinPages(RowsOf(steps[1..])) + step.response.rows
  {
    hide IsPage, Ascending, PollsCancelled, Sees;
    var step := steps[0];
    assert step in steps;
    GoneGrows(all, gone, request, matcher, steps);
    assert forall later <- steps[1..] :: later in steps;
    assert RowsOf(steps)[1..] == RowsOf(steps[1..]);
    if |steps| == 1 {
      assert steps[1..] == [] && [] + step.response.rows == step.response.rows;
    }
  }

  lemma {:induction false} WholeSuffix<T>(a: seq<T>)
    ensures IsSuffix(a, a)
  {
  }

  lemma {:induction false} SuffixBothWays<T>(a: seq<T>, b: seq<T>)
    requires IsSuffix(a, b) && IsSuffix(b, a)
    ensures a == b
  {
  }

  /** What one page says about the rows of the first page it still sees. */
  lemma {:induction false} KeptPageAdvances(
      all: seq<QueryRow>, request: Request, matcher: TextMatcher, step: PageStep)
    requires Sees(step.view, all, step.gone, request.cursorSeq) && Ascending(step.view)
    requires IsPage(step.view, request, Rules(request, matcher, step.expired), step.scanned, step.response)
    ensures var kept, response := all[step.gone..], step.response;
      && (response.nextCursorSeq.Some? <==> response.stopReason in {Limit, ScanBudget, Deadline})
      && (response.nextCursorSeq.Some? ==>
            && (request.cursorSeq.Some? ==> response.nextCursorSeq.value < request.cursorSeq.value)
            && Expected(kept, request, matcher)
               == Expected(kept, NextRequest(request, response), matcher) + response.rows
            && |Filter(kept, InScope(NextRequest(request, response)))| < |Filter(kept, InScope(request))|)
      && (response.stopReason == Complete ==> response.rows == Expected(kept, request, matcher))
      && IsSuffix(response.rows, Expected(kept, request, matcher))
  {
    hide InScope, Stopped, Respond, Expected, Ascending, IsSuffix;
    PageOfKept(step.view, all, step.gone, request);
    KeptAscends(step.view, all, step.gone, request.cursorSeq);
    PageAdvances(
      all[step.gone..], request, Rules(request, matcher, step.expired), step.scanned, step.response);
  }

  lemma {:induction false} KeptAscends(view: seq<QueryRow>, all: seq<QueryRow>, gone: nat, cursor: Option<nat>)
    requires Sees(view, all, gone, cursor) && Ascending(view)
    ensures Ascending(all[gone..])
  {
    assert view == all[gone..] + view[|all| - gone..];
    AscendingParts(all[gone..], view[|all| - gone..]);
  }

  lemma {:induction false} ScopeSuffix(all: seq<QueryRow>, gone: nat, further: nat, request: Request)
    requires gone <= further <= |all|
    ensures |Filter(all[further..], InScope(request))| <= |Filter(all[gone..], InScope(request))|
  {
    hide InScope;
    assert all[gone..] == all[gone..further] + all[further..];
    FilterConcat(all[gone..further], all[further..], InScope(request));
  }

  /** When the joined pages ascend, every page ascends and lies wholly below the pages before it. */
  lemma {:induction false} PagesDescend(pages: seq<seq<QueryRow>>)
    requires Ascending(JoinPages(pages))
    ensures forall i | 0 <= i < |pages| :: Ascending(pages[i])
    ensures forall i, j | 0 <= i < j < |pages| :: forall x <- pages[i], y <- pages[j] :: y.seqNo < x.seqNo
  {
    if pages != [] {
      AscendingParts(JoinPages(pages[1..]), pages[0]);
      PagesDescend(pages[1..]);
      forall j, y | 0 < j < |pages| && y in pages[j] ensures y in JoinPages(pages[1..]) {
        JoinedMember(pages[1..], j - 1, y);
      }
      forall i, j | 0 <= i < j < |pages|
        ensures forall x <- pages[i], y <- pages[j] :: y.seqNo < x.seqNo
      {
        if i > 0 {
          assert pages[i] == pages[1..][i - 1] && pages[j] == pages[1..][j - 1];
        }
      }
      forall i | 0 <= i < |pages| ensures Ascending(pages[i]) {
        if i > 0 {
          assert pages[i] == pages[1..][i - 1];
        }
      }
    }
  }

  lemma {:induction false} JoinedMember(pages: seq<seq<QueryRow>>, i: nat, row: QueryRow)
    requires i < |pages| && row in pages[i]
    ensures row in JoinPages(pages)
  {
    if i > 0 {
      JoinedMember(pages[1..], i - 1, row);
    }
  }

  // ----- The order in which pages come -----

  predicate OneHoldsRows(pages: seq<seq<QueryRow>>) {
    forall i, j | 0 <= i < j < |pages| :: pages[i] == [] || pages[j] == []
  }

  lemma {:induction false} EmptyPages(pages: seq<seq<QueryRow>>)
    ensures JoinPages(pages) == [] <==> forall i | 0 <= i < |pages| :: |pages[i]| == 0
    ensures |JoinPages(pages)| == |Flatten(pages)|
  {
    if pages != [] {
      EmptyPages(pages[1..]);
      assert |JoinPages(pages)| == |JoinPages(pages[1..])| + |pages[0]|;
      assert JoinPages(pages) == [] ==> forall i | 0 < i < |pages| :: pages[i] == pages[1..][i - 1];
    }
  }

  lemma {:induction false} OneHoldsRowsHere(pages: seq<seq<QueryRow>>)
    requires pages != []
    ensures OneHoldsRows(pages) <==> if pages[0] == [] then OneHoldsRows(pages[1..]) else JoinPages(pages[1..]) == []
  {
    var rest := pages[1..];
    EmptyPages(rest);
    if pages[0] == [] {
      if OneHoldsRows(rest) {
        forall i, j | 0 <= i < j < |pages| ensures pages[i] == [] || pages[j] == [] {
          if i > 0 {
            assert pages[i] == rest[i - 1] && pages[j] == rest[j - 1];
          }
        }
      }
      if OneHoldsRows(pages) {
        forall i, j | 0 <= i < j < |rest| ensures rest[i] == [] || rest[j] == [] {
          assert rest[i] == pages[i + 1] && rest[j] == pages[j + 1];
        }
      }
    } else if JoinPages(rest) == [] {
      forall i, j | 0 <= i < j < |pages| ensures pages[i] == [] || pages[j] == [] {
        assert pages[j] == rest[j - 1];
      }
    } else {
      var j :| 0 <= j < |rest| && |rest[j]| != 0;
      assert pages[j + 1] == rest[j];
    }
  }

  /** Pages one after the other, newest first, hold their rows in order exactly if at most one page holds rows. */
  lemma {:induction false} InOrderExactly(pages: seq<seq<QueryRow>>)
    requires Ascending(JoinPages(pages))
    ensures Flatten(pages) == JoinPages(pages) <==> OneHoldsRows(pages)
  {
    if pages != [] {
      var rest := pages[1..];
      var older, here := JoinPages(rest), pages[0];
      AscendingParts(older, here);
      OneHoldsRowsHere(pages);
      InOrderExactly(rest);
      EmptyPages(rest);
      if here == [] {
        assert older + here == older && here + Flatten(rest) == Flatten(rest);
      } else if older == [] {
        assert older + here == here && here + Flatten(rest) == here;
      } else {
        assert older[0] in older && here[0] in here;
        assert (older + here)[0] == older[0] && (here + Flatten(rest))[0] == here[0];
      }
    }
  }

  /** One row a page: they come newest first. */
  lemma {:induction false} OneByOneIsReversed(pages: seq<seq<QueryRow>>)
    requires forall page <- pages :: |page| <= 1
    ensures Flatten(pages) == Reverse(JoinPages(pages))
  {
    if pages != [] {
      assert pages[0] in pages && forall page <- pages[1..] :: page in pages;
      OneByOneIsReversed(pages[1..]);
      if pages[0] == [] {
        assert JoinPages(pages) == JoinPages(pages[1..]);
      } else {
        assert pages[0] == [pages[0][0]];
        ReverseFromEnd(JoinPages(pages[1..]), pages[0][0]);
      }
    }
  }

  lemma {:induction false} SortLength(rows: seq<QueryRow>)
    ensures |SortBySeq(rows)| == |rows|
  {
    if rows != [] {
      SortLength(rows[1..]);
      InsertLength(SortBySeq(rows[1..]), rows[0]);
    }
  }

  lemma {:induction false} InsertLength(sorted: seq<QueryRow>, row: QueryRow)
    ensures |InsertBySeq(sorted, row)| == |sorted| + 1
  {
    if sorted != [] {
      InsertLength(sorted[1..], row);
    }
  }

  /** No page exceeds the limit, and one that stops for it is full. */
  lemma {:induction false} PageSize(rules: ScanRules, scanned: seq<QueryRow>, reason: StopReason)
    requires Paused(rules, scanned, reason) && rules.limit > 0
    ensures var rows := Respond(rules, scanned, reason).rows;
      |rows| <= rules.limit && (reason == Limit <==> |rows| == rules.limit)
  {
    hide MatchesText, SortBySeq;
    var accepts := MatchesText(rules.matcher);
    FewMatches(rules, scanned, reason);
    ReverseLength(Filter(scanned, accepts));
    SortLength(Reverse(Filter(scanned, accepts)));
    if reason == Limit {
      FewMatches(rules, scanned[1..], Complete);
    }
  }
}
