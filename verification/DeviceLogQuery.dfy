/** The backward, paged scan over the persisted batches of one stream. */
module DeviceLogQuery {
  import opened Sequences
  import opened DeviceLogLine
  import opened DeviceLogSegment
  import opened DeviceLogMetadata

  const QUERY_BATCH_PAGE_SIZE: nat := 64
  const QUERY_MAX_LIMIT: nat := 2000
  const REGEX_PATTERN_LIMIT: nat := 2048
  const SQLITE_MAX_TIME_MS: nat := 0x7FFF_FFFF_FFFF_FFFF

  datatype Request = Request(
    streamId: string, query: string, regex: bool, matchCase: bool, levels: seq<string>,
    pid: string, process: string, domain: string, tag: string,
    timeRangeMs: nat, limit: nat, cursorSeq: Option<nat>, scanBudgetLines: Option<nat>)

  datatype StopReason = Complete | Limit | ScanBudget | Deadline | Cancelled

  datatype Response = Response(
    rows: seq<QueryRow>, scannedLines: nat, nextCursorSeq: Option<nat>, truncated: bool,
    budgetExceeded: bool, stopReason: StopReason, continuationReason: string)

  // ----- Text matching; the regex engine is a parameter -----

  datatype TextMatcher = MatchAll | Plain(text: string, matchCase: bool) | Regex(accepts: string -> bool)

  /** Pattern and case sensitivity to a matcher, or nothing when the pattern does not compile. */
  type RegexEngine = (string, bool) -> Option<string -> bool>

  function BuildMatcher(request: Request, engine: RegexEngine): Result<TextMatcher, string> {
    if Trim(request.query) == "" then Ok(MatchAll)
    else if request.regex then
      if |request.query| > REGEX_PATTERN_LIMIT then Err("Device log regex is too long")
      else
        match engine(request.query, request.matchCase)
        case None => Err("Invalid regular expression")
        case Some(accepts) => Ok(Regex(accepts))
    else if request.matchCase then Ok(Plain(request.query, true))
    else Ok(Plain(ToAsciiLowercase(request.query), false))
  }

  function MatchesText(matcher: TextMatcher): QueryRow -> bool {
    (row: QueryRow) =>
      match matcher
      case MatchAll => true
      case Plain(text, matchCase) => Contains(if matchCase then row.raw else ToAsciiLowercase(row.raw), text)
      case Regex(accepts) => accepts(row.raw)
  }

  // ----- Structured filters and page scope -----

  predicate ContainsFilter(value: string, filter: string, matchCase: bool) {
    || Trim(filter) == ""
    || if matchCase then Contains(value, filter)
       else Contains(ToAsciiLowercase(value), ToAsciiLowercase(filter))
  }

  predicate MatchesPid(value: Option<nat>, filter: string) {
    Trim(filter) == "" || (ParseU64(Trim(filter)).Some? && value == ParseU64(Trim(filter)))
  }

  predicate MatchesStructuredFilters(row: QueryRow, request: Request) {
    && (request.levels == [] || row.level in request.levels)
    && MatchesPid(row.pid, request.pid)
    && ContainsFilter(row.process, request.process, request.matchCase)
    && ContainsFilter(row.domain, request.domain, request.matchCase)
    && ContainsFilter(row.tag, request.tag, request.matchCase)
  }

  predicate MatchesPageScope(row: QueryRow, request: Request) {
    request.cursorSeq.Some? ==> row.seqNo < request.cursorSeq.value
  }

  function InScope(request: Request): QueryRow -> bool {
    (row: QueryRow) => MatchesPageScope(row, request) && MatchesStructuredFilters(row, request)
  }

  function NormalizeLimit(limit: nat): (normal: nat)
    ensures 1 <= normal <= QUERY_MAX_LIMIT && (1 <= limit <= QUERY_MAX_LIMIT ==> normal == limit)
  {
    if limit < 1 then 1 else if limit > QUERY_MAX_LIMIT then QUERY_MAX_LIMIT else limit
  }

  function RangeEnd(nowMs: nat): nat {
    if nowMs < SQLITE_MAX_TIME_MS then nowMs else SQLITE_MAX_TIME_MS
  }

  function RangeStart(nowMs: nat, timeRangeMs: nat): nat {
    if timeRangeMs > RangeEnd(nowMs) then 0 else RangeEnd(nowMs) - timeRangeMs
  }

  function QueriedBatches(batches: seq<MetadataRow>, request: Request, nowMs: nat): seq<MetadataRow> {
    InRange(batches, request.streamId, RangeStart(nowMs, request.timeRangeMs), RangeEnd(nowMs))
  }

  // ----- What a batch holds -----

  function BatchLines(files: Files, batch: MetadataRow): Result<seq<string>, ReadError> {
    if batch.segmentFile !in files then Err(StaleSegment)
    else ReadSegmentFileLines(files, batch.segmentFile, batch.segmentOffset, batch.segmentBytes)
  }

  predicate IsStale(files: Files, batch: MetadataRow) {
    BatchLines(files, batch) == Err(StaleSegment)
  }

  function ParseRows(firstSeq: nat, receivedAtMs: nat, lines: seq<string>): (rows: seq<QueryRow>)
    ensures |rows| == |lines|
    decreases |lines|
  {
    if lines == [] then []
    else [ParseQueryRow(firstSeq, receivedAtMs, lines[0])] + ParseRows(firstSeq + 1, receivedAtMs, lines[1..])
  }

  lemma {:induction false} ParsedRow(firstSeq: nat, receivedAtMs: nat, lines: seq<string>, i: nat)
    requires i < |lines|
    ensures ParseRows(firstSeq, receivedAtMs, lines)[i] == ParseQueryRow(firstSeq + i, receivedAtMs, lines[i])
    decreases |lines|
  {
    if i > 0 {
      ParsedRow(firstSeq + 1, receivedAtMs, lines[1..], i - 1);
    }
  }

  function BatchRows(files: Files, batch: MetadataRow): seq<QueryRow> {
    match BatchLines(files, batch)
    case Ok(lines) => ParseRows(batch.firstSeq, batch.receivedAtMs, lines)
    case Err(_) => []
  }

  /** Every readable row of the batches, oldest first. */
  function AllRows(files: Files, batches: seq<MetadataRow>): seq<QueryRow> {
    if batches == [] then [] else AllRows(files, batches[1..]) + BatchRows(files, batches[0])
  }

  // ----- Pruning -----

  predicate ExcludedByCursor(batch: MetadataRow, request: Request) {
    request.cursorSeq.Some? && batch.firstSeq >= request.cursorSeq.value
  }

  predicate ExcludedByLevel(batchLevels: seq<string>, levels: seq<string>) {
    levels != [] && batchLevels != [] && !exists level <- levels :: level in batchLevels
  }

  predicate Excluded(batch: MetadataRow, request: Request) {
    ExcludedByCursor(batch, request) || ExcludedByLevel(batch.levels, request.levels)
  }

  function BatchCandidates(files: Files, batch: MetadataRow, request: Request): seq<QueryRow> {
    if Excluded(batch, request) then [] else Filter(BatchRows(files, batch), InScope(request))
  }

  /** The rows the scan counts, oldest first: those in scope in batches the metadata does not exclude. */
  function Candidates(files: Files, batches: seq<MetadataRow>, request: Request): seq<QueryRow> {
    if batches == [] then []
    else Candidates(files, batches[1..], request) + BatchCandidates(files, batches[0], request)
  }

  lemma {:induction false} CandidatesConcat(
      files: Files, a: seq<MetadataRow>, b: seq<MetadataRow>, request: Request)
    ensures Candidates(files, a + b, request) == Candidates(files, b, request) + Candidates(files, a, request)
  {
    hide BatchCandidates;
    if a == [] {
      assert a + b == b;
    } else {
      assert (a + b)[1..] == a[1..] + b;
      CandidatesConcat(files, a[1..], b, request);
      assert (a + b)[0] == a[0];
    }
  }

  // ----- When a scan stops -----

  datatype ScanRules =
    ScanRules(limit: nat, budget: Option<nat>, matcher: TextMatcher, expired: nat -> bool)

  function Rules(request: Request, matcher: TextMatcher, expired: nat -> bool): ScanRules {
    ScanRules(NormalizeLimit(request.limit), request.scanBudgetLines, matcher, expired)
  }

  /**
    `scanned` is what a scan has counted so far, oldest first, so its first row is the one just
    counted. `Complete` means: carry on.
    */
  function Verdict(rules: ScanRules, scanned: seq<QueryRow>): StopReason
    requires scanned != []
  {
    var accepts := MatchesText(rules.matcher);
    if accepts(scanned[0]) && |Filter(scanned, accepts)| >= rules.limit then Limit
    else if rules.budget.Some? && |scanned| >= rules.budget.value then ScanBudget
    else if rules.expired(|scanned|) then Deadline
    else Complete
  }

  predicate RanThrough(rules: ScanRules, scanned: seq<QueryRow>) {
    scanned != [] ==> Verdict(rules, scanned) == Complete && RanThrough(rules, scanned[1..])
  }

  predicate IsSuffix<T(==)>(suffix: seq<T>, whole: seq<T>) {
    |suffix| <= |whole| && whole[|whole| - |suffix|..] == suffix
  }

  /** The scan counted exactly `scanned`, the newest of the candidates, and stopped for `reason`. */
  predicate Stopped(rules: ScanRules, candidates: seq<QueryRow>, scanned: seq<QueryRow>, reason: StopReason) {
    && IsSuffix(scanned, candidates)
    && match reason
       case Complete => scanned == candidates && RanThrough(rules, scanned)
       case Cancelled => RanThrough(rules, scanned)
       case _ => scanned != [] && Verdict(rules, scanned) == reason && RanThrough(rules, scanned[1..])
  }

  /** The newest `k` of the rows counted. */
  function Latest(scanned: seq<QueryRow>, k: nat): seq<QueryRow>
    requires k <= |scanned|
  {
    scanned[|scanned| - k..]
  }

  predicate LimitReached(rules: ScanRules, scanned: seq<QueryRow>) {
    |Filter(scanned, MatchesText(rules.matcher))| >= rules.limit
  }

  predicate BudgetSpent(rules: ScanRules, scanned: seq<QueryRow>) {
    rules.budget.Some? && |scanned| >= rules.budget.value
  }

  /** At the first row where the limit is reached, the budget spent or the time over, in this order, the scan stops. */
  ghost predicate StopsAtFirst(rules: ScanRules, scanned: seq<QueryRow>, reason: StopReason) {
    && (forall k | 0 < k < |scanned| ::
          !LimitReached(rules, Latest(scanned, k)) && !BudgetSpent(rules, Latest(scanned, k)) && !rules.expired(k))
    && (scanned != [] && reason != Cancelled ==>
          reason == if LimitReached(rules, scanned) then Limit
                    else if BudgetSpent(rules, scanned) then ScanBudget
                    else if rules.expired(|scanned|) then Deadline
                    else Complete)
    && (scanned == [] ==> reason == Complete || reason == Cancelled)
  }

  lemma {:induction false} RanPast(rules: ScanRules, scanned: seq<QueryRow>)
    requires RanThrough(rules, scanned) && rules.limit > 0
    ensures forall k | 0 < k <= |scanned| ::
      !LimitReached(rules, Latest(scanned, k)) && !BudgetSpent(rules, Latest(scanned, k)) && !rules.expired(k)
    ensures !LimitReached(rules, scanned)
  {
    hide MatchesText;
    if scanned != [] {
      var rest := scanned[1..];
      RanPast(rules, rest);
      OneMoreMatch(rules, scanned);
      forall k | 0 < k <= |scanned|
        ensures !LimitReached(rules, Latest(scanned, k)) && !BudgetSpent(rules, Latest(scanned, k)) && !rules.expired(k)
      {
        if k < |scanned| {
          assert Latest(scanned, k) == Latest(rest, k);
        } else {
          assert Latest(scanned, k) == scanned;
        }
      }
    }
  }

  lemma {:induction false} OneMoreMatch(rules: ScanRules, scanned: seq<QueryRow>)
    requires scanned != []
    ensures LimitReached(rules, scanned) && !LimitReached(rules, scanned[1..]) ==> MatchesText(rules.matcher)(scanned[0])
  {
    hide MatchesText;
  }

  /** A scan that was not cancelled stops exactly where it has to. */
  lemma {:induction false} ScanStopsAtFirst(
      rules: ScanRules, candidates: seq<QueryRow>, scanned: seq<QueryRow>, reason: StopReason)
    requires Stopped(rules, candidates, scanned, reason) && rules.limit > 0
    ensures StopsAtFirst(rules, scanned, reason)
  {
    hide MatchesText;
    if scanned != [] {
      var rest := scanned[1..];
      assert RanThrough(rules, rest);
      RanPast(rules, rest);
      OneMoreMatch(rules, scanned);
      hide RanThrough, LimitReached, BudgetSpent;
      forall k | 0 < k < |scanned|
        ensures !LimitReached(rules, Latest(scanned, k)) && !BudgetSpent(rules, Latest(scanned, k)) && !rules.expired(k)
      {
        assert Latest(scanned, k) == Latest(rest, k);
      }
      if reason == Complete {
        ScanWentOn(rules, scanned);
      } else if reason != Cancelled {
        VerdictIs(rules, scanned);
      }
    }
  }

  lemma {:induction false} ScanWentOn(rules: ScanRules, scanned: seq<QueryRow>)
    requires RanThrough(rules, scanned) && rules.limit > 0 && scanned != []
    ensures !LimitReached(rules, scanned) && !BudgetSpent(rules, scanned) && !rules.expired(|scanned|)
  {
    RanPast(rules, scanned);
    assert Latest(scanned, |scanned|) == scanned;
  }

  lemma {:induction false} VerdictIs(rules: ScanRules, scanned: seq<QueryRow>)
    requires scanned != [] && (LimitReached(rules, scanned) ==> MatchesText(rules.matcher)(scanned[0]))
    ensures Verdict(rules, scanned)
         == if LimitReached(rules, scanned) then Limit
            else if BudgetSpent(rules, scanned) then ScanBudget
            else if rules.expired(|scanned|) then Deadline
            else Complete
  {
    hide MatchesText;
  }

  /** What the flags of a response say of its scan. */
  lemma {:induction false} ResponseSays(rules: ScanRules, scanned: seq<QueryRow>, reason: StopReason)
    ensures var response := Respond(rules, scanned, reason);
      && response.scannedLines == |scanned| && response.stopReason == reason
      && (response.truncated <==> reason == Limit)
      && (response.budgetExceeded <==> reason == ScanBudget || reason == Deadline)
      && (response.continuationReason == "cancelled" <==> reason == Cancelled)
      && (response.continuationReason == "limit" ==> reason == Limit && response.nextCursorSeq.Some?)
      && (response.continuationReason == "scanBudget" ==> reason == ScanBudget && response.nextCursorSeq.Some?)
      && (response.continuationReason == "deadline" ==> reason == Deadline && response.nextCursorSeq.Some?)
      && (response.continuationReason == "none" <==>
            reason == Complete || (reason != Cancelled && response.nextCursorSeq.None?))
  {
    assert "cancelled" != "none" && "limit" != "none" && "scanBudget" != "none" && "deadline" != "none";
    assert "cancelled" != "limit" && "cancelled" != "scanBudget" && "cancelled" != "deadline";
    assert |"limit"| == 5 && |"scanBudget"| == 10 && |"deadline"| == 8 && |"cancelled"| == 9 && |"none"| == 4;
  }

  // ----- The response -----

  function InsertBySeq(sorted: seq<QueryRow>, row: QueryRow): seq<QueryRow> {
    if sorted == [] || row.seqNo <= sorted[0].seqNo then [row] + sorted
    else [sorted[0]] + InsertBySeq(sorted[1..], row)
  }

  /** `sort_by_key(|row| row.seq)`, which is stable. */
  function SortBySeq(rows: seq<QueryRow>): seq<QueryRow> {
    if rows == [] then [] else InsertBySeq(SortBySeq(rows[1..]), rows[0])
  }

  function ContinuationReason(reason: StopReason, cursor: Option<nat>): string {
    if cursor.None? then if reason == Cancelled then "cancelled" else "none"
    else
      match reason
      case Limit => "limit"
      case ScanBudget => "scanBudget"
      case Deadline => "deadline"
      case Cancelled => "cancelled"
      case Complete => "none"
  }

  function ResponseFromMatches(
      matched: seq<QueryRow>, limit: nat, scannedLines: nat, lastScannedSeq: Option<nat>, reason: StopReason)
    : Response
  {
    var rows := SortBySeq(matched);
    var early := reason == ScanBudget || reason == Deadline;
    var next :=
      if |rows| >= limit then if rows == [] then None else Some(rows[0].seqNo)
      else if early then lastScannedSeq
      else None;
    Response(rows, scannedLines, next, reason == Limit, early, reason, ContinuationReason(reason, next))
  }

  function FirstSeq(scanned: seq<QueryRow>): Option<nat> {
    if scanned == [] then None else Some(scanned[0].seqNo)
  }

  /** The response that follows from what was scanned; matches are collected newest first. */
  function Respond(rules: ScanRules, scanned: seq<QueryRow>, reason: StopReason): Response {
    ResponseFromMatches(
      Reverse(Filter(scanned, MatchesText(rules.matcher))), rules.limit, |scanned|, FirstSeq(scanned), reason)
  }

  // ----- The scan itself -----

  predicate PollsCancelled(cancel: Option<nat -> bool>, poll: nat) {
    cancel.Some? && cancel.value(poll)
  }

  /** The polls from `from` up to `polls` were made, and all but a last one that stopped the scan answered no. */
  ghost predicate Polled(cancel: Option<nat -> bool>, from: nat, polls: nat, stopped: bool) {
    && from <= polls && (stopped ==> from < polls)
    && forall p | from <= p < polls :: PollsCancelled(cancel, p) <==> stopped && p == polls - 1
  }

  lemma {:induction false} PolledOn(cancel: Option<nat -> bool>, from: nat, middle: nat, polls: nat, stopped: bool)
    requires Polled(cancel, from, middle, false) && Polled(cancel, middle, polls, stopped)
    ensures Polled(cancel, from, polls, stopped) && from <= middle <= polls
  {
  }

  lemma {:induction false} PolledOnce(cancel: Option<nat -> bool>, from: nat, polls: nat)
    requires Polled(cancel, from, polls, false)
    ensures Polled(cancel, from, polls + 1, PollsCancelled(cancel, polls))
  {
  }

  lemma {:induction false} NothingPolled(cancel: Option<nat -> bool>, from: nat)
    ensures Polled(cancel, from, from, false)
  {
  }

  lemma {:induction false} ReverseLength<T>(s: seq<T>)
    ensures |Reverse(s)| == |s|
  {
    if s != [] {
      ReverseLength(s[1..]);
    }
  }

  /** What has been counted when only the rows from `i` on were visited, after `before`. */
  ghost function Seen(rows: seq<QueryRow>, i: nat, scope: QueryRow -> bool, before: seq<QueryRow>): seq<QueryRow>
    requires i <= |rows|
  {
    Filter(rows[i..], scope) + before
  }

  lemma {:induction false} SeenStep(rows: seq<QueryRow>, i: nat, scope: QueryRow -> bool, before: seq<QueryRow>)
    requires i < |rows|
    ensures var rest := Seen(rows, i + 1, scope, before);
      Seen(rows, i, scope, before) == if scope(rows[i]) then [rows[i]] + rest else rest
  {
    assert rows[i..][1..] == rows[i + 1..];
  }

  lemma {:induction false} SeenSplit(rows: seq<QueryRow>, i: nat, scope: QueryRow -> bool, before: seq<QueryRow>)
    requires i <= |rows|
    ensures Filter(rows[..i], scope) + Seen(rows, i, scope, before) == Filter(rows, scope) + before
    ensures Seen(rows, |rows|, scope, before) == before
    ensures Filter(rows[..0], scope) == []
  {
    var front, back := rows[..i], rows[i..];
    var kept, rest := Filter(front, scope), Filter(back, scope);
    assert Filter(rows, scope) == kept + rest by {
      FilterConcat(front, back, scope);
      assert front + back == rows;
    }
    assert kept + (rest + before) == kept + rest + before;
  }

  /** The local variables of a scan that has counted `scanned`. */
  ghost predicate Tracks(
      matcher: TextMatcher, scanned: seq<QueryRow>, scannedLines: nat, lastScannedSeq: Option<nat>,
      matched: seq<QueryRow>)
  {
    && scannedLines == |scanned|
    && lastScannedSeq == FirstSeq(scanned)
    && matched == Reverse(Filter(scanned, MatchesText(matcher)))
  }

  /** What `scanned` looks like when the scan pauses with a reason; `Complete` when it has not stopped. */
  ghost predicate Paused(rules: ScanRules, scanned: seq<QueryRow>, reason: StopReason) {
    if reason == Complete || reason == Cancelled then RanThrough(rules, scanned)
    else scanned != [] && Verdict(rules, scanned) == reason && RanThrough(rules, scanned[1..])
  }

  /** Counts one row in scope; `Complete` means the scan goes on. */
  method CountRow(
      row: QueryRow, rules: ScanRules, countBefore: nat, lastBefore: Option<nat>, matchedBefore: seq<QueryRow>,
      ghost before: seq<QueryRow>)
    returns (verdict: StopReason, scannedLines: nat, lastScannedSeq: Option<nat>, matched: seq<QueryRow>)
    requires Tracks(rules.matcher, before, countBefore, lastBefore, matchedBefore)
    requires Paused(rules, before, Complete) && |matchedBefore| < rules.limit
    ensures Tracks(rules.matcher, [row] + before, scannedLines, lastScannedSeq, matched)
    ensures verdict != Cancelled && Paused(rules, [row] + before, verdict)
    ensures verdict == Limit <==> |matched| >= rules.limit
  {
    var accepts := MatchesText(rules.matcher);
    assert ([row] + before)[1..] == before;
    ReverseLength(Filter(before, accepts));
    ReverseLength(Filter([row] + before, accepts));
    scannedLines, lastScannedSeq, matched := countBefore + 1, Some(row.seqNo), matchedBefore;
    if accepts(row) {
      matched := matched + [row];
      if |matched| >= rules.limit {
        return Limit, scannedLines, lastScannedSeq, matched;
      }
    }
    if rules.budget.Some? && scannedLines >= rules.budget.value {
      return ScanBudget, scannedLines, lastScannedSeq, matched;
    }
    if rules.expired(scannedLines) {
      return Deadline, scannedLines, lastScannedSeq, matched;
    }
    return Complete, scannedLines, lastScannedSeq, matched;
  }

  /**
    Counts the rows of one batch, newest first. The caller passes what was counted before
    (`before`, oldest first) and gets it back extended; `left` is what the batch still holds.
    */
  method ScanBatchLines(
      batch: MetadataRow, lines: seq<string>, request: Request, rules: ScanRules,
      cancel: Option<nat -> bool>, pollsBefore: nat, countBefore: nat, lastBefore: Option<nat>,
      matchedBefore: seq<QueryRow>, ghost before: seq<QueryRow>)
    returns (reason: StopReason, polls: nat, scannedLines: nat, lastScannedSeq: Option<nat>,
             matched: seq<QueryRow>, ghost scanned: seq<QueryRow>, ghost left: seq<QueryRow>)
    requires Tracks(rules.matcher, before, countBefore, lastBefore, matchedBefore)
    requires Paused(rules, before, Complete) && |matchedBefore| < rules.limit
    ensures Tracks(rules.matcher, scanned, scannedLines, lastScannedSeq, matched)
    ensures Paused(rules, scanned, reason)
    ensures left + scanned
         == Filter(ParseRows(batch.firstSeq, batch.receivedAtMs, lines), InScope(request)) + before
    ensures reason == Complete ==> left == []
    ensures Polled(cancel, pollsBefore, polls, reason == Cancelled)
    // one poll before each row that was visited
    ensures var visited := polls - pollsBefore - (if reason == Cancelled then 1 else 0);
      && 0 <= visited <= |lines|
      && scanned == Seen(ParseRows(batch.firstSeq, batch.receivedAtMs, lines), |lines| - visited, InScope(request), before)
    ensures reason == Limit <==> |matched| >= rules.limit
  {
    hide ParseQueryRow, ParseRows, InScope, Seen, Tracks, RanThrough, Verdict, Filter, PollsCancelled;
    ghost var rows := ParseRows(batch.firstSeq, batch.receivedAtMs, lines);
    reason, polls, scannedLines, lastScannedSeq, matched :=
      Complete, pollsBefore, countBefore, lastBefore, matchedBefore;
    var scope := InScope(request);
    scanned := before;
    ghost var from := |lines|;
    SeenSplit(rows, from, scope, before);
    for i := |lines| downto 0
      invariant from == i
      invariant scanned == Seen(rows, from, scope, before)
      invariant polls == pollsBefore + |lines| - i && Polled(cancel, pollsBefore, polls, false)
      invariant Tracks(rules.matcher, scanned, scannedLines, lastScannedSeq, matched)
      invariant reason == Complete && Paused(rules, scanned, reason) && |matched| < rules.limit
    {
      var cancelled := PollsCancelled(cancel, polls);
      polls := polls + 1;
      if cancelled {
        reason := Cancelled;
        break;
      }
      var row := ParseQueryRow(batch.firstSeq + i, batch.receivedAtMs, lines[i]);
      ParsedRow(batch.firstSeq, batch.receivedAtMs, lines, i);
      from := i;
      SeenStep(rows, i, scope, before);
      if scope(row) {
        reason, scannedLines, lastScannedSeq, matched :=
          CountRow(row, rules, scannedLines, lastScannedSeq, matched, scanned);
        scanned := [row] + scanned;
        assert scanned == Seen(rows, from, scope, before);
        if reason != Complete {
          break;
        }
      }
    }
    assert scanned == Seen(rows, from, scope, before);
    left := Filter(rows[..from], scope);
    SeenSplit(rows, from, scope, before);
  }

  /** Every file named here has a batch, among those queried, that could not be read back whole. */
  ghost predicate AllStale(files: Files, batches: seq<MetadataRow>, names: set<string>) {
    forall name <- names :: exists batch <- batches :: batch.segmentFile == name && IsStale(files, batch)
  }

  /** Every file of the first `seen` batches that was looked for and found stale is named. */
  ghost predicate Collected(
      files: Files, queried: seq<MetadataRow>, seen: nat, request: Request, names: set<string>)
  {
    forall i | 0 <= i < seen && i < |queried| :: StaleIsNamed(files, queried[i], request, names)
  }

  predicate StaleIsNamed(files: Files, batch: MetadataRow, request: Request, names: set<string>) {
    !Excluded(batch, request) && IsStale(files, batch) ==> batch.segmentFile in names
  }

  lemma {:induction false} CollectedNext(
      files: Files, queried: seq<MetadataRow>, seen: nat, request: Request, names: seq<string>, more: seq<string>)
    requires seen < |queried| && Collected(files, queried, seen, request, FileSet(names))
    requires more == names || more == names + [queried[seen].segmentFile]
    requires StaleIsNamed(files, queried[seen], request, FileSet(more))
    ensures Collected(files, queried, seen + 1, request, FileSet(more))
  {
    hide Excluded, IsStale;
    forall i | 0 <= i < seen ensures StaleIsNamed(files, queried[i], request, FileSet(more)) {
      assert StaleIsNamed(files, queried[i], request, FileSet(names));
      assert forall name <- names :: name in more;
    }
  }

  lemma {:induction false} NothingCollected(
      files: Files, queried: seq<MetadataRow>, request: Request, names: seq<string>)
    ensures Collected(files, queried, 0, request, FileSet(names))
  {
  }

  lemma {:induction false} NamedLast(names: seq<string>, name: string)
    ensures name in FileSet(names + [name])
  {
    assert name in names + [name];
  }

  lemma {:induction false} NothingStale(files: Files, batches: seq<MetadataRow>)
    ensures FileSet([]) == {} && AllStale(files, batches, {})
  {
  }

  lemma {:induction false} AddStale(files: Files, batches: seq<MetadataRow>, i: nat, names: seq<string>)
    requires i < |batches| && IsStale(files, batches[i]) && AllStale(files, batches, FileSet(names))
    ensures AllStale(files, batches, FileSet(names + [batches[i].segmentFile]))
  {
    hide IsStale;
    assert batches[i] in batches;
    assert FileSet(names + [batches[i].segmentFile]) == FileSet(names) + {batches[i].segmentFile};
  }

  /** What a finished query says about the batches it was asked for. */
  ghost predicate Answers(
      files: Files, queried: seq<MetadataRow>, request: Request, rules: ScanRules,
      scanned: seq<QueryRow>, response: Response)
  {
    && Stopped(rules, Candidates(files, queried, request), scanned, response.stopReason)
    && response == Respond(rules, scanned, response.stopReason)
  }

  /** The query has visited the first `seen` batches; `left` is what the last of them still holds. */
  ghost predicate Midway(
      files: Files, queried: seq<MetadataRow>, seen: nat, request: Request, rules: ScanRules, reason: StopReason,
      scannedLines: nat, lastScannedSeq: Option<nat>, matched: seq<QueryRow>,
      scanned: seq<QueryRow>, left: seq<QueryRow>)
  {
    && seen <= |queried|
    && left + scanned == Candidates(files, queried[..seen], request)
    && Tracks(rules.matcher, scanned, scannedLines, lastScannedSeq, matched)
    && Paused(rules, scanned, reason)
    && (reason == Complete ==> left == [])
    && (reason == Limit <==> |matched| >= rules.limit)
  }

  lemma {:induction false} MidwayStarts(files: Files, queried: seq<MetadataRow>, request: Request, rules: ScanRules)
    requires rules.limit > 0
    ensures Midway(files, queried, 0, request, rules, Complete, 0, None, [], [], [])
  {
  }

  lemma {:induction false} MidwayCancelled(
      files: Files, queried: seq<MetadataRow>, seen: nat, request: Request, rules: ScanRules,
      scannedLines: nat, lastScannedSeq: Option<nat>, matched: seq<QueryRow>, scanned: seq<QueryRow>)
    requires Midway(files, queried, seen, request, rules, Complete, scannedLines, lastScannedSeq, matched, scanned, [])
    ensures Midway(files, queried, seen, request, rules, Cancelled, scannedLines, lastScannedSeq, matched, scanned, [])
  {
    hide Candidates, Tracks, Verdict;
  }

  lemma {:induction false} ResponseReason(
      matched: seq<QueryRow>, limit: nat, scannedLines: nat, lastScannedSeq: Option<nat>, reason: StopReason)
    ensures var response := ResponseFromMatches(matched, limit, scannedLines, lastScannedSeq, reason);
      response.stopReason == reason
      && (matched == [] && limit > 0 ==> response.rows == [] && (reason == Cancelled ==> response.nextCursorSeq == None))
  {
  }

  lemma {:induction false} MidwayEnds(
      files: Files, queried: seq<MetadataRow>, seen: nat, request: Request, rules: ScanRules, reason: StopReason,
      scannedLines: nat, lastScannedSeq: Option<nat>, matched: seq<QueryRow>,
      scanned: seq<QueryRow>, left: seq<QueryRow>)
    requires Midway(files, queried, seen, request, rules, reason, scannedLines, lastScannedSeq, matched, scanned, left)
    requires reason == Complete ==> seen == |queried|
    ensures Answers(files, queried, request, rules, scanned,
      ResponseFromMatches(matched, rules.limit, scannedLines, lastScannedSeq, reason))
  {
    hide Candidates, RanThrough, Verdict, SortBySeq, Filter, Reverse, IsSuffix, ResponseFromMatches, MatchesText;
    var older := SplitCandidates(files, queried, seen, request);
    Reassociate(older, left, scanned);
    SuffixOf(older + left, scanned);
    ResponseReason(matched, rules.limit, scannedLines, lastScannedSeq, reason);
    if reason == Complete {
      assert [] + [] + scanned == scanned;
    }
  }

  lemma {:induction false} SplitCandidates(files: Files, queried: seq<MetadataRow>, seen: nat, request: Request)
    returns (older: seq<QueryRow>)
    requires seen <= |queried|
    ensures Candidates(files, queried, request) == older + Candidates(files, queried[..seen], request)
    ensures seen == |queried| ==> older == []
  {
    older := Candidates(files, queried[seen..], request);
    assert queried == queried[..seen] + queried[seen..];
    CandidatesConcat(files, queried[..seen], queried[seen..], request);
  }

  lemma {:induction false} SuffixOf<T>(front: seq<T>, suffix: seq<T>)
    ensures IsSuffix(suffix, front + suffix)
  {
  }

  lemma {:induction false} NextBatch(files: Files, queried: seq<MetadataRow>, i: nat, request: Request)
    requires i < |queried|
    ensures Candidates(files, queried[..i + 1], request)
         == BatchCandidates(files, queried[i], request) + Candidates(files, queried[..i], request)
    ensures Candidates(files, [], request) == []
  {
    hide BatchCandidates;
    assert queried[..i + 1] == queried[..i] + [queried[i]];
    CandidatesConcat(files, queried[..i], [queried[i]], request);
    assert Candidates(files, [queried[i]], request) == BatchCandidates(files, queried[i], request);
  }

  /** One batch of a page: pruned, found stale, unreadable, or scanned. */
  datatype Visit = Pruned | Orphan | Failed | Scanned

  method VisitBatch(
      files: Files, batch: MetadataRow, request: Request, rules: ScanRules,
      cancel: Option<nat -> bool>, pollsBefore: nat, countBefore: nat, lastBefore: Option<nat>,
      matchedBefore: seq<QueryRow>, ghost queried: seq<MetadataRow>, ghost seen: nat, ghost before: seq<QueryRow>)
    returns (visit: Visit, reason: StopReason, polls: nat, scannedLines: nat, lastScannedSeq: Option<nat>,
             matched: seq<QueryRow>, ghost scanned: seq<QueryRow>, ghost left: seq<QueryRow>)
    requires seen < |queried| && queried[seen] == batch
    requires Midway(files, queried, seen, request, rules, Complete, countBefore, lastBefore, matchedBefore, before, [])
    ensures visit.Failed? <==> !Excluded(batch, request) && BatchLines(files, batch) == Err(Fatal)
    ensures visit.Orphan? <==> !Excluded(batch, request) && IsStale(files, batch)
    ensures !visit.Scanned? ==> reason == Complete
    ensures Polled(cancel, pollsBefore, polls, reason == Cancelled)
    ensures reason == Complete ==> left == []
    ensures !visit.Failed? ==>
      Midway(files, queried, seen + 1, request, rules, reason, scannedLines, lastScannedSeq, matched, scanned, left)
  {
    hide Candidates, ReadSegmentFileLines, ParseRows, InScope, Tracks, RanThrough, Verdict, PollsCancelled, Seen;
    visit, reason, polls := Pruned, Complete, pollsBefore;
    scannedLines, lastScannedSeq, matched := countBefore, lastBefore, matchedBefore;
    scanned, left := before, [];
    NextBatch(files, queried, seen, request);
    assert [] + before == before;
    if Excluded(batch, request) {
      return;
    }
    match BatchLines(files, batch) {
      case Err(StaleSegment) =>
        visit := Orphan;
      case Err(Fatal) =>
        visit := Failed;
      case Ok(lines) =>
        visit := Scanned;
        reason, polls, scannedLines, lastScannedSeq, matched, scanned, left := ScanBatchLines(
          batch, lines, request, rules, cancel, pollsBefore, countBefore, lastBefore, matchedBefore, before);
    }
  }

  /** One page of batches, until one of them stops the scan or cannot be read. */
  method ScanPage(
      files: Files, page: seq<MetadataRow>, request: Request, rules: ScanRules,
      cancel: Option<nat -> bool>, pollsBefore: nat, countBefore: nat, lastBefore: Option<nat>,
      matchedBefore: seq<QueryRow>, orphansBefore: seq<string>,
      ghost queried: seq<MetadataRow>, ghost start: nat, ghost before: seq<QueryRow>)
    returns (failed: bool, reason: StopReason, polls: nat, scannedLines: nat, lastScannedSeq: Option<nat>,
             matched: seq<QueryRow>, orphans: seq<string>,
             ghost seen: nat, ghost scanned: seq<QueryRow>, ghost left: seq<QueryRow>)
    requires start + |page| <= |queried| && page == queried[start..start + |page|]
    requires Midway(files, queried, start, request, rules, Complete, countBefore, lastBefore, matchedBefore, before, [])
    requires AllStale(files, queried, FileSet(orphansBefore))
    requires Collected(files, queried, start, request, FileSet(orphansBefore))
    ensures failed ==> exists batch <- queried :: BatchLines(files, batch) == Err(Fatal)
    ensures !failed ==>
      && Midway(files, queried, seen, request, rules, reason, scannedLines, lastScannedSeq, matched, scanned, left)
      && AllStale(files, queried, FileSet(orphans))
      && (reason == Complete ==> Collected(files, queried, seen, request, FileSet(orphans)))
      && Polled(cancel, pollsBefore, polls, reason == Cancelled)
      && (reason == Complete ==> seen == start + |page| && left == [])
  {
    hide Midway, Excluded, BatchLines, AllStale, IsStale, Polled, FileSet, Collected;
    failed, reason, polls, orphans := false, Complete, pollsBefore, orphansBefore;
    scannedLines, lastScannedSeq, matched := countBefore, lastBefore, matchedBefore;
    seen, scanned, left := start, before, [];
    NothingPolled(cancel, pollsBefore);
    for i := 0 to |page|
      invariant reason == Complete && left == [] && seen == start + i && !failed
      invariant Midway(files, queried, seen, request, rules, reason, scannedLines, lastScannedSeq, matched, scanned, left)
      invariant AllStale(files, queried, FileSet(orphans)) && Polled(cancel, pollsBefore, polls, false)
      invariant Collected(files, queried, seen, request, FileSet(orphans))
    {
      var visit;
      ghost var polledBefore := polls;
      assert page[i] == queried[seen] && page[i] in queried;
      visit, reason, polls, scannedLines, lastScannedSeq, matched, scanned, left := VisitBatch(
        files, page[i], request, rules, cancel, polls, scannedLines, lastScannedSeq, matched, queried, seen, scanned);
      PolledOn(cancel, pollsBefore, polledBefore, polls, reason == Cancelled);
      seen := seen + 1;
      if visit.Failed? {
        failed := true;
        return;
      }
      ghost var orphansSoFar := orphans;
      if visit.Orphan? {
        AddStale(files, queried, seen - 1, orphans);
        orphans := orphans + [page[i].segmentFile];
        NamedLast(orphansSoFar, page[i].segmentFile);
      }
      CollectedNext(files, queried, seen - 1, request, orphansSoFar, orphans);
      if reason != Complete {
        return;
      }
    }
  }

  /**
    What one query comes to. `expired` is the deadline as seen after each counted row, `cancel` the
    answers to the cancellation polls, of which `polls` were made. The query is cancelled exactly if
    the last of them said so. It fails only on its pattern or on an unreadable batch, and only when
    it answers do the rows of the files found stale go.
    */
  ghost predicate QueryOutcome(
      files: Files, batches: seq<MetadataRow>, request: Request, nowMs: nat, engine: RegexEngine,
      expired: nat -> bool, cancel: Option<nat -> bool>, r: Result<Response, string>,
      scanned: seq<QueryRow>, stale: set<string>, polls: nat)
  {
    var queried := QueriedBatches(batches, request, nowMs);
    && AllStale(files, queried, stale)
    && match BuildMatcher(request, engine)
       case Err(message) => r == Err(message) && stale == {}
       case Ok(matcher) =>
         match r
         case Ok(response) =>
           && Answers(files, queried, request, Rules(request, matcher, expired), scanned, response)
           && (response.stopReason == Complete ==> Collected(files, queried, |queried|, request, stale))
           && 0 < polls && Polled(cancel, 0, polls, response.stopReason == Cancelled)
         case Err(_) => stale == {} && exists batch <- queried :: BatchLines(files, batch) == Err(Fatal)
  }

  lemma {:induction false} FailedOutcome(
      files: Files, batches: seq<MetadataRow>, request: Request, nowMs: nat, engine: RegexEngine,
      expired: nat -> bool, cancel: Option<nat -> bool>, message: string)
    requires match BuildMatcher(request, engine)
      case Err(built) => message == built
      case Ok(_) => exists batch <- QueriedBatches(batches, request, nowMs) :: BatchLines(files, batch) == Err(Fatal)
    ensures QueryOutcome(files, batches, request, nowMs, engine, expired, cancel, Err(message), [], {}, 0)
  {
    hide BatchLines, BuildMatcher;
  }

  lemma {:induction false} AnsweredOutcome(
      files: Files, batches: seq<MetadataRow>, request: Request, nowMs: nat, engine: RegexEngine,
      expired: nat -> bool, cancel: Option<nat -> bool>, matcher: TextMatcher, response: Response,
      scanned: seq<QueryRow>, stale: set<string>, polls: nat)
    requires BuildMatcher(request, engine) == Ok(matcher)
    requires Answers(
      files, QueriedBatches(batches, request, nowMs), request, Rules(request, matcher, expired), scanned, response)
    requires AllStale(files, QueriedBatches(batches, request, nowMs), stale)
    requires var queried := QueriedBatches(batches, request, nowMs);
      response.stopReason == Complete ==> Collected(files, queried, |queried|, request, stale)
    requires 0 < polls && Polled(cancel, 0, polls, response.stopReason == Cancelled)
    ensures QueryOutcome(
      files, batches, request, nowMs, engine, expired, cancel, Ok(response), scanned, stale, polls)
  {
    hide BuildMatcher, Answers, AllStale, Polled, Collected;
  }

  method QueryDeviceLogBuffer(
      files: Files, metadata: DeviceLogMetadataStore, request: Request, nowMs: nat,
      engine: RegexEngine, expired: nat -> bool, cancel: Option<nat -> bool>)
    returns (r: Result<Response, string>, ghost scanned: seq<QueryRow>, ghost stale: set<string>, ghost polls: nat)
    requires metadata.Valid()
    modifies metadata
    ensures metadata.Valid()
    ensures metadata.batches == Without(old(metadata.batches), stale)
    ensures QueryOutcome(
      files, old(metadata.batches), request, nowMs, engine, expired, cancel, r, scanned, stale, polls)
    // superseded before it starts
    ensures BuildMatcher(request, engine).Ok? && PollsCancelled(cancel, 0) ==>
      r.Ok? && r.value.stopReason == Cancelled && r.value.rows == [] && r.value.nextCursorSeq == None
  {
    hide Midway, Answers, ResponseFromMatches, BuildMatcher, Filter, Excluded, BatchLines, Ordered, AllStale, IsStale,
      PollsCancelled, Polled, QueryOutcome, Collected;
    scanned, stale, polls := [], {}, 0;
    WithoutNothing(metadata.batches);
    NothingStale(files, QueriedBatches(metadata.batches, request, nowMs));
    var built := BuildMatcher(request, engine);
    if built.Err? {
      r := Err(built.error);
      FailedOutcome(files, metadata.batches, request, nowMs, engine, expired, cancel, built.error);
      return;
    }
    var rules := Rules(request, built.value, expired);
    var startMs, endMs := RangeStart(nowMs, request.timeRangeMs), RangeEnd(nowMs);
    ghost var queried := InRange(metadata.batches, request.streamId, startMs, endMs);
    var offset, polled, scannedLines := 0, 0, 0;
    var lastScannedSeq: Option<nat>, matched: seq<QueryRow>, orphans: seq<string> := None, [], [];
    var reason := Complete;
    ghost var left: seq<QueryRow>, seen := [], 0;
    MidwayStarts(files, queried, request, rules);
    NothingPolled(cancel, 0);
    NothingCollected(files, queried, request, orphans);
    while reason == Complete
      invariant Midway(files, queried, seen, request, rules, reason, scannedLines, lastScannedSeq, matched, scanned, left)
      invariant reason == Complete ==> seen == offset <= |queried| && left == []
      invariant Polled(cancel, 0, polled, reason == Cancelled) && (reason != Complete ==> polled > 0)
      invariant AllStale(files, queried, FileSet(orphans))
      invariant reason == Complete ==> Collected(files, queried, seen, request, FileSet(orphans))
      invariant PollsCancelled(cancel, 0) ==> polled == 0 && matched == [] && reason == Complete
      invariant metadata.Valid() && metadata.batches == old(metadata.batches)
      decreases |queried| - offset, reason == Complete
    {
      var cancelled := PollsCancelled(cancel, polled);
      PolledOnce(cancel, 0, polled);
      polled := polled + 1;
      if cancelled {
        MidwayCancelled(files, queried, seen, request, rules, scannedLines, lastScannedSeq, matched, scanned);
        reason := Cancelled;
        break;
      }
      var page := metadata.QueryRangePage(request.streamId, startMs, endMs, QUERY_BATCH_PAGE_SIZE, offset);
      if page == [] {
        break;
      }
      ghost var start := offset;
      offset := offset + |page|;
      assert page == queried[start..offset];
      ghost var polledBefore := polled;
      var failed;
      failed, reason, polled, scannedLines, lastScannedSeq, matched, orphans, seen, scanned, left := ScanPage(
        files, page, request, rules, cancel, polled, scannedLines, lastScannedSeq, matched, orphans,
        queried, start, scanned);
      if failed {
        FailedOutcome(files, metadata.batches, request, nowMs, engine, expired, cancel, "segment read failed");
        scanned := [];
        return Err("segment read failed"), scanned, stale, polls;
      }
      PolledOn(cancel, 0, polledBefore, polled, reason == Cancelled);
    }
    MidwayEnds(files, queried, seen, request, rules, reason, scannedLines, lastScannedSeq, matched, scanned, left);
    ResponseReason(matched, rules.limit, scannedLines, lastScannedSeq, reason);
    var response := ResponseFromMatches(matched, rules.limit, scannedLines, lastScannedSeq, reason);
    stale := FileSet(orphans);
    AnsweredOutcome(
      files, metadata.batches, request, nowMs, engine, expired, cancel, built.value, response, scanned, stale, polled);
    if orphans != [] {
      var _ := metadata.DeleteBatchesForSegmentFiles(orphans);
    }
    polls := polled;
    r := Ok(response);
  }
}
