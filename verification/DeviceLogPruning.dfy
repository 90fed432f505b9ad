/** Skipping batches by cursor and level summary: when it loses nothing, and when it does. */
module DeviceLogPruning {
  import opened Sequences
  import opened Utf8
  import opened DeviceLogLine
  import opened DeviceLogSegment
  import opened DeviceLogMetadata
  import opened DeviceLogQuery

  /** The level filter leaves "unknown" out, or names every level there is. */
  predicate LevelsSafe(levels: seq<string>) {
    "unknown" in levels ==> forall level <- NAMED_LEVELS :: level in levels
  }

  /** Some other row filter is not blank: only lines that parse whole can pass it. */
  predicate FiltersFields(request: Request) {
    Trim(request.pid) != "" || Trim(request.process) != "" || Trim(request.domain) != "" || Trim(request.tag) != ""
  }

  /** The condition a caller can check on its filters. */
  predicate PruneSafe(request: Request) {
    LevelsSafe(request.levels) || FiltersFields(request)
  }

  /** The batch carries no summary, or one that holds the level of each of its lines. */
  ghost predicate LevelsCovered(files: Files, batch: MetadataRow) {
    batch.levels != [] && BatchLines(files, batch).Ok? ==>
      forall line <- BatchLines(files, batch).value :: LevelFromLine(line) in batch.levels
  }

  // ----- A row that passes safe filters has a summarised level that is requested -----

  lemma {:induction false} SummaryLevels(line: string)
    ensures LevelFromLine(line) == "unknown" || LevelFromLine(line) in NAMED_LEVELS
  {
    var parts := SplitWhitespace(line);
    if |parts| >= 5 {
      assert LevelName(parts[4]) == "unknown" || LevelName(parts[4]) in NAMED_LEVELS;
    }
  }

  lemma {:induction false} NoFieldContains(filter: string, matchCase: bool)
    requires Trim(filter) != ""
    ensures !ContainsFilter("", filter, matchCase)
  {
    assert filter != "";
  }

  /** Only a line that parses whole passes a field filter, and of those both readings agree on the level. */
  lemma {:induction false} FieldsNeedWholeLine(line: string, seqNo: nat, receivedAtMs: nat, request: Request)
    requires FiltersFields(request)
    requires MatchesStructuredFilters(ParseQueryRow(seqNo, receivedAtMs, line), request)
    ensures ParseQueryRow(seqNo, receivedAtMs, line).level == LevelFromLine(line)
  {
    hide SplitWhitespace, SplitOnce, ContainsFilter, Trim, ParseU64, LevelName;
    if Trim(request.process) != "" { NoFieldContains(request.process, request.matchCase); }
    if Trim(request.domain) != "" { NoFieldContains(request.domain, request.matchCase); }
    if Trim(request.tag) != "" { NoFieldContains(request.tag, request.matchCase); }
  }

  /** A row in scope keeps its batch from being excluded by level. */
  lemma {:induction false} SafeFiltersKeepLevel(line: string, seqNo: nat, receivedAtMs: nat, request: Request)
    requires PruneSafe(request) && request.levels != []
    requires MatchesStructuredFilters(ParseQueryRow(seqNo, receivedAtMs, line), request)
    ensures LevelFromLine(line) in request.levels
  {
    hide ParseQueryRow, LevelFromLine, MatchesPid, ContainsFilter, Trim;
    if FiltersFields(request) {
      FieldsNeedWholeLine(line, seqNo, receivedAtMs, request);
    } else {
      ReadingsAgreeUpToUnknown(seqNo, receivedAtMs, line);
      SummaryLevels(line);
    }
  }

  // ----- The pruned scan refines the unpruned one -----

  lemma {:induction false} ExcludedHoldsNothing(files: Files, batch: MetadataRow, request: Request)
    requires Excluded(batch, request) && LevelsCovered(files, batch) && PruneSafe(request)
    ensures Filter(BatchRows(files, batch), InScope(request)) == []
  {
    hide ParseQueryRow, LevelFromLine, ReadSegmentFileLines, PruneSafe, Filter, MatchesStructuredFilters;
    var rows := BatchRows(files, batch);
    forall row <- rows ensures !InScope(request)(row) {
      var lines := BatchLines(files, batch).value;
      var i :| 0 <= i < |rows| && rows[i] == row;
      ParsedRow(batch.firstSeq, batch.receivedAtMs, lines, i);
      ParsedSeq(batch.firstSeq + i, batch.receivedAtMs, lines[i]);
      assert lines[i] in lines;
      if MatchesStructuredFilters(row, request) && request.levels != [] {
        SafeFiltersKeepLevel(lines[i], batch.firstSeq + i, batch.receivedAtMs, request);
      }
    }
    FilterNone(rows, InScope(request));
  }

  /** A batch with lines is left unread exactly if none of its rows is below the cursor, or no level of its summary is asked for. */
  lemma {:induction false} ExcludedExactly(files: Files, batch: MetadataRow, request: Request)
    requires BatchRows(files, batch) != []
    ensures Excluded(batch, request) <==>
      || (request.cursorSeq.Some? && forall row <- BatchRows(files, batch) :: row.seqNo >= request.cursorSeq.value)
      || (request.levels != [] && batch.levels != [] && forall level <- batch.levels :: level !in request.levels)
  {
    hide ParseQueryRow, LevelFromLine, ReadSegmentFileLines;
    var lines, rows := BatchLines(files, batch).value, BatchRows(files, batch);
    forall i | 0 <= i < |rows| ensures rows[i].seqNo == batch.firstSeq + i {
      ParsedRow(batch.firstSeq, batch.receivedAtMs, lines, i);
      ParsedSeq(batch.firstSeq + i, batch.receivedAtMs, lines[i]);
    }
    assert rows[0] in rows;
  }

  lemma {:induction false} ParsedSeq(seqNo: nat, receivedAtMs: nat, line: string)
    ensures ParseQueryRow(seqNo, receivedAtMs, line).seqNo == seqNo
  {
  }

  ghost predicate AllCovered(files: Files, batches: seq<MetadataRow>) {
    forall batch <- batches :: LevelsCovered(files, batch)
  }

  /** The rows the pruned scan counts are the rows in scope among all rows. */
  ghost predicate LosesNothing(files: Files, batches: seq<MetadataRow>, request: Request) {
    Candidates(files, batches, request) == Filter(AllRows(files, batches), InScope(request))
  }

  lemma {:induction false} PruningLosesNothing(files: Files, batches: seq<MetadataRow>, request: Request)
    requires PruneSafe(request) && AllCovered(files, batches)
    ensures LosesNothing(files, batches, request)
  {
    hide BatchRows, InScope, LevelsCovered, PruneSafe, Excluded;
    if batches != [] {
      assert batches[0] in batches;
      PruningLosesNothing(files, batches[1..], request);
      FilterConcat(AllRows(files, batches[1..]), BatchRows(files, batches[0]), InScope(request));
      if Excluded(batches[0], request) {
        ExcludedHoldsNothing(files, batches[0], request);
      }
    }
  }

  // ----- Unsafe filters do lose rows -----

  /** Five tokens are enough for the summary and too few for the query. */
  function FiveTokenLine(letter: char): string {
    ['a', ' '] + (['b', ' '] + (['c', ' '] + (['d', ' '] + [letter])))
  }

  lemma {:induction false} ReadingsOfFiveTokens(letter: char)
    requires !IsWhitespace(letter)
    ensures LevelFromLine(FiveTokenLine(letter)) == LevelName([letter])
    ensures ParseQueryRow(0, 0, FiveTokenLine(letter)).level == "unknown"
  {
    hide WordLength, LevelName;
    assert SplitWhitespace(FiveTokenLine(letter)) == [['a'], ['b'], ['c'], ['d'], [letter]] by {
      hide SplitWhitespace;
      SpacedToken('a', ['b', ' '] + (['c', ' '] + (['d', ' '] + [letter])));
      SpacedToken('b', ['c', ' '] + (['d', ' '] + [letter]));
      SpacedToken('c', ['d', ' '] + [letter]);
      SpacedToken('d', [letter]);
      LastToken(letter);
    }
    hide SplitWhitespace;
  }

  function LetterOf(level: string): char
    requires level in NAMED_LEVELS
  {
    if level == "verbose" then 'V' else if level == "debug" then 'D' else if level == "info" then 'I'
    else if level == "warn" then 'W' else if level == "error" then 'E' else 'F'
  }

  /** A request below the first number asks for nothing and loses nothing. */
  lemma {:induction false} NothingBelowZero(files: Files, batches: seq<MetadataRow>, request: Request)
    requires request.cursorSeq == Some(0)
    ensures Candidates(files, batches, request) == [] && LosesNothing(files, batches, request)
  {
    hide BatchRows, MatchesStructuredFilters, Excluded;
    if batches != [] {
      NothingBelowZero(files, batches[1..], request);
      FilterConcat(AllRows(files, batches[1..]), BatchRows(files, batches[0]), InScope(request));
      FilterNone(BatchRows(files, batches[0]), InScope(request));
    }
  }

  /** A batch of one line, as the writer would store and index it, and the one segment file holding it. */
  function StoredAlone(line: string): (Files, MetadataRow) {
    var bytes := BatchBytes([line]);
    (map["s.logseg" := bytes], MetadataRow("s", "d", 0, 0, 1, "s.logseg", 0, |bytes|, LevelSummary([line])))
  }

  lemma {:induction false} ReadsAlone(line: string)
    requires '\n' !in line && |line| < 1000 && StripCarriageReturn(line) == line
    ensures var (files, batch) := StoredAlone(line);
      BatchLines(files, batch) == Ok([line]) && batch.levels == [LevelFromLine(line)] && LevelsCovered(files, batch)
  {
    hide LevelFromLine;
    assert LevelSummary([line][..0]) == [];
    assert Written([line][1..]) == "" && |Written([line])| <= 1001;
    EncodedLength(Written([line]));
    hide Written, Encode;
    var bytes := BatchBytes([line]);
    assert [] + bytes + [] == bytes;
    ReadBack([], [line], []);
    assert StoredLines([line]) == [line];
  }

  /** Any request whose filters are unsafe, and that asks for anything at all, loses a row of some store. */
  lemma {:induction false} UnsafeFiltersLoseRow(request: Request, missing: string)
    requires "unknown" in request.levels && missing in NAMED_LEVELS && missing !in request.levels
    requires !FiltersFields(request) && request.cursorSeq != Some(0)
    ensures var (files, batch) := StoredAlone(FiveTokenLine(LetterOf(missing)));
      AllCovered(files, [batch]) && !LosesNothing(files, [batch], request)
  {
    hide ParseQueryRow, LevelFromLine, FiveTokenLine, ReadSegmentFileLines, LevelSummary;
    var letter := LetterOf(missing);
    var line := FiveTokenLine(letter);
    ReadingsOfFiveTokens(letter);
    assert LevelName([letter]) == missing;
    assert '\n' !in line && |line| < 1000 && StripCarriageReturn(line) == line by { FiveTokens(letter); }
    ReadsAlone(line);
    var (files, batch) := StoredAlone(line);
    assert ExcludedByLevel(batch.levels, request.levels);
    assert Candidates(files, [batch], request) == [] by {
      assert [batch][1..] == [] && Candidates(files, [], request) == [];
    }
    var row := ParseQueryRow(0, 0, line);
    assert ParseRows(0, 0, [line]) == [row] by {
      assert [line][1..] == [] && ParseRows(1, 0, []) == [];
    }
    assert AllRows(files, [batch]) == [row] by {
      assert [batch][1..] == [] && AllRows(files, []) == [];
    }
    assert InScope(request)(row) by { UnparsedPasses(line, request); }
    assert Filter([row], InScope(request))[0] == row;
  }

  lemma {:induction false} FiveTokens(letter: char)
    requires letter in ['V', 'D', 'I', 'W', 'E', 'F']
    ensures '\n' !in FiveTokenLine(letter) && |FiveTokenLine(letter)| == 9
    ensures StripCarriageReturn(FiveTokenLine(letter)) == FiveTokenLine(letter)
  {
  }

  lemma {:induction false} UnparsedPasses(line: string, request: Request)
    requires ParseQueryRow(0, 0, line).level == "unknown" && "unknown" in request.levels
    requires !FiltersFields(request) && request.cursorSeq != Some(0)
    ensures InScope(request)(ParseQueryRow(0, 0, line))
  {
    hide Trim;
  }

  /**
    Pruning loses nothing from any store with sound summaries exactly if the filters are safe, or the
    cursor leaves nothing to ask for.
    */
  lemma {:induction false} PruningLosesNothingExactly(request: Request)
    ensures PruneSafe(request) || request.cursorSeq == Some(0)
       <==> forall files: Files, batches: seq<MetadataRow> ::
              AllCovered(files, batches) ==> LosesNothing(files, batches, request)
  {
    hide LosesNothing, AllCovered, FiltersFields;
    if PruneSafe(request) || request.cursorSeq == Some(0) {
      forall files: Files, batches: seq<MetadataRow> | AllCovered(files, batches)
        ensures LosesNothing(files, batches, request)
      {
        if request.cursorSeq == Some(0) {
          NothingBelowZero(files, batches, request);
        } else {
          PruningLosesNothing(files, batches, request);
        }
      }
    } else {
      var missing :| missing in NAMED_LEVELS && missing !in request.levels;
      UnsafeFiltersLoseRow(request, missing);
      var (files, batch) := StoredAlone(FiveTokenLine(LetterOf(missing)));
      assert AllCovered(files, [batch]) && !LosesNothing(files, [batch], request);
    }
  }
}
