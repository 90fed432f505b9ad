/** What the table and the files together promise a reader, and that cleaning up keeps it. */
module DeviceLogStoreView {
  import opened Sequences
  import opened DeviceLogLine
  import opened DeviceLogSegment
  import opened DeviceLogMetadata
  import opened DeviceLogQuery
  import opened DeviceLogPaging
  import opened DeviceLogPruning

  /** Newest first, the batches hold disjoint, descending intervals of sequence numbers. */
  ghost predicate SeqDescending(files: Files, batches: seq<MetadataRow>) {
    batches == []
    || ((forall older <- batches[1..] :: older.firstSeq + |BatchRows(files, older)| <= batches[0].firstSeq)
        && SeqDescending(files, batches[1..]))
  }

  /** The batches of one segment file are all stale or none is: no file has been cut short. */
  ghost predicate NoTruncatedFile(files: Files, batches: seq<MetadataRow>) {
    forall a <- batches, b <- batches | a.segmentFile == b.segmentFile :: IsStale(files, a) == IsStale(files, b)
  }

  ghost predicate Sound(files: Files, batches: seq<MetadataRow>) {
    && SeqDescending(files, batches)
    && NoTruncatedFile(files, batches)
    && AllCovered(files, batches)
  }

  lemma {:induction false} ParsedRange(firstSeq: nat, receivedAtMs: nat, lines: seq<string>)
    ensures Ascending(ParseRows(firstSeq, receivedAtMs, lines))
    ensures forall row <- ParseRows(firstSeq, receivedAtMs, lines) ::
      firstSeq <= row.seqNo < firstSeq + |lines|
    decreases |lines|
  {
    hide ParseQueryRow;
    if lines != [] {
      ParsedSeq(firstSeq, receivedAtMs, lines[0]);
      ParsedRange(firstSeq + 1, receivedAtMs, lines[1..]);
      var row, rest := ParseQueryRow(firstSeq, receivedAtMs, lines[0]), ParseRows(firstSeq + 1, receivedAtMs, lines[1..]);
      assert ([row] + rest)[1..] == rest;
    }
  }

  lemma {:induction false} BatchRange(files: Files, batch: MetadataRow)
    ensures Ascending(BatchRows(files, batch))
    ensures forall row <- BatchRows(files, batch) ::
      batch.firstSeq <= row.seqNo < batch.firstSeq + |BatchRows(files, batch)|
  {
    hide BatchLines, ParseRows;
    if BatchLines(files, batch).Ok? {
      ParsedRange(batch.firstSeq, batch.receivedAtMs, BatchLines(files, batch).value);
    }
  }

  /** Disjoint descending batches give one ascending list of rows. */
  lemma {:induction false} RowsAscend(files: Files, batches: seq<MetadataRow>)
    requires SeqDescending(files, batches)
    ensures Ascending(AllRows(files, batches))
    ensures batches != [] ==>
      forall row <- AllRows(files, batches[1..]) :: row.seqNo < batches[0].firstSeq
  {
    hide BatchRows;
    if batches != [] {
      var rest, bound := batches[1..], batches[0].firstSeq;
      RowsAscend(files, rest);
      RowsBelow(files, rest, bound);
      BatchRange(files, batches[0]);
      AscendingParts(AllRows(files, rest), BatchRows(files, batches[0]));
    }
  }

  lemma {:induction false} RowsBelow(files: Files, batches: seq<MetadataRow>, bound: nat)
    requires forall batch <- batches :: batch.firstSeq + |BatchRows(files, batch)| <= bound
    ensures forall row <- AllRows(files, batches) :: row.seqNo < bound
  {
    hide BatchRows;
    if batches != [] {
      RowsBelow(files, batches[1..], bound);
      BatchRange(files, batches[0]);
      assert batches[0] in batches;
    }
  }

  lemma {:induction false} DescendingFilter(files: Files, batches: seq<MetadataRow>, keep: MetadataRow -> bool)
    requires SeqDescending(files, batches)
    ensures SeqDescending(files, Filter(batches, keep))
  {
    hide BatchRows;
    if batches != [] {
      DescendingFilter(files, batches[1..], keep);
      FilterMember(batches[1..], keep);
      if keep(batches[0]) {
        assert Filter(batches, keep)[1..] == Filter(batches[1..], keep);
      }
    }
  }

  /** Any selection of a sound store is sound. */
  lemma {:induction false} SoundSelection(files: Files, batches: seq<MetadataRow>, keep: MetadataRow -> bool)
    requires Sound(files, batches)
    ensures Sound(files, Filter(batches, keep))
  {
    hide LevelsCovered, IsStale, SeqDescending;
    DescendingFilter(files, batches, keep);
    FilterMember(batches, keep);
  }

  /** Dropping batches that hold no readable row changes no row list. */
  lemma {:induction false} DroppingEmptyBatches(files: Files, batches: seq<MetadataRow>, keep: MetadataRow -> bool)
    requires forall batch <- batches :: keep(batch) || BatchRows(files, batch) == []
    ensures AllRows(files, Filter(batches, keep)) == AllRows(files, batches)
  {
    hide BatchRows;
    if batches != [] {
      DroppingEmptyBatches(files, batches[1..], keep);
      assert batches[0] in batches;
      if keep(batches[0]) {
        assert Filter(batches, keep)[1..] == Filter(batches[1..], keep);
      }
    }
  }

  lemma {:induction false} WithoutOfStream(batches: seq<MetadataRow>, names: set<string>, streamId: string)
    ensures Filter(Without(batches, names), OfStream(streamId)) == Without(Filter(batches, OfStream(streamId)), names)
  {
    var both := (row: MetadataRow) => row.streamId == streamId && row.segmentFile !in names;
    FilterTwice(batches, OutsideFiles(names), OfStream(streamId), both);
    FilterTwice(batches, OfStream(streamId), OutsideFiles(names), both);
  }

  lemma {:induction false} SelectionCommutes(
      batches: seq<MetadataRow>, names: set<string>, request: Request, nowMs: nat)
    ensures QueriedBatches(Without(batches, names), request, nowMs)
         == Without(QueriedBatches(batches, request, nowMs), names)
  {
    var inRange := Selects(request.streamId, RangeStart(nowMs, request.timeRangeMs), RangeEnd(nowMs));
    var outside := OutsideFiles(names);
    var both := (row: MetadataRow) => inRange(row) && outside(row);
    FilterTwice(batches, outside, inRange, both);
    FilterTwice(batches, inRange, outside, both);
  }

  /** The clean-up at the end of a query leaves a sound store sound and changes no row. */
  lemma {:induction false} CleanupKeepsRows(
      files: Files, batches: seq<MetadataRow>, names: set<string>, request: Request, nowMs: nat)
    requires var queried := QueriedBatches(batches, request, nowMs);
      Sound(files, queried) && AllStale(files, queried, names)
    ensures var queried := QueriedBatches(batches, request, nowMs);
      var left := QueriedBatches(Without(batches, names), request, nowMs);
      Sound(files, left) && AllRows(files, left) == AllRows(files, queried)
  {
    hide BatchLines, LevelsCovered, QueriedBatches;
    var queried := QueriedBatches(batches, request, nowMs);
    SelectionCommutes(batches, names, request, nowMs);
    FilterMember(queried, OutsideFiles(names));
    DescendingFilter(files, queried, OutsideFiles(names));
    forall batch <- queried | batch.segmentFile in names ensures BatchRows(files, batch) == [] {
      var stale :| stale in queried && stale.segmentFile == batch.segmentFile && IsStale(files, stale);
      assert IsStale(files, batch);
    }
    DroppingEmptyBatches(files, queried, OutsideFiles(names));
  }
}
