/** From lines to a queryable store: batching, and the sink that appends and indexes each batch. */
module DeviceLogWriter {
  import opened Sequences
  import opened Utf8
  import opened DeviceLogLine
  import opened DeviceLogSegment
  import opened DeviceLogMetadata
  import opened DeviceLogQuery
  import opened DeviceLogPruning
  import opened DeviceLogStoreView
  import opened DeviceLogRuntime

  const MAX_BATCH_LINES: nat := 50

  // ----- Batching -----

  datatype LineEvent = Line(text: string) | Timeout

  function EventLines(event: LineEvent): seq<string> {
    match event case Line(text) => [text] case Timeout => []
  }

  function LinesOf(events: seq<LineEvent>): seq<string> {
    if events == [] then [] else EventLines(events[0]) + LinesOf(events[1..])
  }

  /** The batch, if any, as a list of lines. */
  function Emitted(batch: Option<seq<string>>): seq<string> {
    match batch case None => [] case Some(lines) => lines
  }

  class DeviceLogBatcher {
    var lines: seq<string>

    ghost predicate Valid()
      reads this
    {
      |lines| < MAX_BATCH_LINES
    }

    constructor ()
      ensures Valid() && lines == []
    {
      lines := [];
    }

    method Push(line: string) returns (batch: Option<seq<string>>)
      requires Valid()
      modifies this
      ensures Valid()
      ensures Emitted(batch) + lines == old(lines) + [line]
      ensures batch.Some? <==> |old(lines)| + 1 == MAX_BATCH_LINES
      ensures batch.Some? ==> lines == []
    {
      batch := None;
      lines := lines + [line];
      if |lines| >= MAX_BATCH_LINES {
        batch := Flush();
      }
    }

    method Flush() returns (batch: Option<seq<string>>)
      modifies this
      ensures Valid() && lines == []
      ensures batch == if old(lines) == [] then None else Some(old(lines))
    {
      if lines == [] {
        return None;
      }
      batch := Some(lines);
      lines := [];
    }
  }

  lemma {:induction false} Regroup<T>(
      done: seq<T>, pending: seq<T>, head: seq<T>, emitted: seq<T>, kept: seq<T>)
    requires emitted + kept == pending + head
    ensures done + emitted + kept == done + pending + head
  {
    assert done + pending + head == done + (pending + head);
    assert done + (emitted + kept) == done + emitted + kept;
  }

  /** Some batches from the first on hold exactly these lines. */
  ghost predicate CutAfter(batches: seq<seq<string>>, lines: seq<string>) {
    exists k | 0 <= k <= |batches| :: Flatten(batches[..k]) == lines
  }

  /** A batch ends at every timeout so far. */
  ghost predicate CutAtTimeouts(batches: seq<seq<string>>, events: seq<LineEvent>, i: nat)
    requires i <= |events|
  {
    forall j | 0 <= j < i && events[j].Timeout? :: CutAfter(batches, LinesOf(events[..j]))
  }

  /** The `k`-th batch ends at a timeout, or at the end. */
  ghost predicate EndsAtPause(batches: seq<seq<string>>, events: seq<LineEvent>, k: nat)
    requires k < |batches|
  {
    exists j | 0 <= j <= |events| :: (j < |events| ==> events[j].Timeout?) && Flatten(batches[..k + 1]) == LinesOf(events[..j])
  }

  /** Only a batch that ends so is not full. */
  ghost predicate ShortOnlyAtPauses(batches: seq<seq<string>>, events: seq<LineEvent>) {
    forall k | 0 <= k < |batches| && |batches[k]| < MAX_BATCH_LINES :: EndsAtPause(batches, events, k)
  }

  lemma {:induction false} MoreBatches(
      batches: seq<seq<string>>, batch: Option<seq<string>>, events: seq<LineEvent>, i: nat, pause: bool)
    requires i <= |events| && CutAtTimeouts(batches, events, i) && ShortOnlyAtPauses(batches, events)
    requires (pause ==> i < |events| ==> events[i].Timeout?)
    requires batch.Some? ==> if pause then Flatten(batches) + batch.value == LinesOf(events[..i])
                             else |batch.value| >= MAX_BATCH_LINES
    ensures CutAtTimeouts(AddBatch(batches, batch), events, i) && ShortOnlyAtPauses(AddBatch(batches, batch), events)
  {
    hide Flatten, LinesOf;
    var more := AddBatch(batches, batch);
    assert more[..|batches|] == batches;
    assert forall k | 0 <= k <= |batches| :: more[..k] == batches[..k];
    forall j | 0 <= j < i && events[j].Timeout? ensures CutAfter(more, LinesOf(events[..j])) {
      assert CutAfter(batches, LinesOf(events[..j]));
    }
    forall k | 0 <= k < |more| && |more[k]| < MAX_BATCH_LINES ensures EndsAtPause(more, events, k) {
      if k < |batches| {
        assert more[k] == batches[k];
        assert EndsAtPause(batches, events, k);
      } else {
        assert more[..k + 1] == more;
      }
    }
  }

  lemma {:induction false} CutHere(batches: seq<seq<string>>, events: seq<LineEvent>, i: nat)
    requires i < |events| && CutAtTimeouts(batches, events, i)
    requires events[i].Timeout? ==> Flatten(batches) == LinesOf(events[..i])
    ensures CutAtTimeouts(batches, events, i + 1)
  {
    hide Flatten, LinesOf;
    assert batches[..|batches|] == batches;
  }

  /**
    The reader's loop up to disconnection: no line is lost, repeated or reordered; each timeout ends a
    batch; and only there or at the end is a batch not full.
    */
  method BatchStream(events: seq<LineEvent>) returns (batches: seq<seq<string>>)
    ensures Flatten(batches) == LinesOf(events)
    ensures forall batch <- batches :: 1 <= |batch| <= MAX_BATCH_LINES
    ensures CutAtTimeouts(batches, events, |events|) && ShortOnlyAtPauses(batches, events)
  {
    hide Flatten, LinesOf, CutAtTimeouts, ShortOnlyAtPauses;
    var batcher := new DeviceLogBatcher();
    batches := [];
    var batch: Option<seq<string>>;
    NothingBatched(events);
    for i := 0 to |events|
      invariant fresh(batcher) && batcher.Valid()
      invariant Flatten(batches) + batcher.lines == LinesOf(events[..i])
      invariant forall batch <- batches :: 1 <= |batch| <= MAX_BATCH_LINES
      invariant CutAtTimeouts(batches, events, i) && ShortOnlyAtPauses(batches, events)
    {
      ghost var before, pending := Flatten(batches), batcher.lines;
      match events[i] {
        case Line(text) =>
          batch := batcher.Push(text);
        case Timeout =>
          batch := batcher.Flush();
      }
      MoreBatches(batches, batch, events, i, events[i].Timeout?);
      batches := AddBatch(batches, batch);
      NextEvent(events, i);
      Regroup(before, pending, EventLines(events[i]), Emitted(batch), batcher.lines);
      CutHere(batches, events, i);
    }
    assert events[..|events|] == events;
    batch := batcher.Flush();
    MoreBatches(batches, batch, events, |events|, true);
    batches := AddBatch(batches, batch);
  }

  function AddBatch(batches: seq<seq<string>>, batch: Option<seq<string>>): (more: seq<seq<string>>)
    ensures Flatten(more) == Flatten(batches) + Emitted(batch)
  {
    match batch
    case None => batches
    case Some(lines) =>
      FlattenConcat(batches, [lines]);
      batches + [lines]
  }

  lemma {:induction false} NothingBatched(events: seq<LineEvent>)
    ensures Flatten<string>([]) == [] && LinesOf([]) == [] && events[..0] == []
    ensures CutAtTimeouts([], events, 0) && ShortOnlyAtPauses([], events)
  {
  }

  lemma {:induction false} LinesAppend(events: seq<LineEvent>, event: LineEvent)
    ensures LinesOf(events + [event]) == LinesOf(events) + EventLines(event)
  {
    if events == [] {
      assert [event][1..] == [];
    } else {
      assert (events + [event])[1..] == events[1..] + [event];
      LinesAppend(events[1..], event);
    }
  }

  lemma {:induction false} NextEvent(events: seq<LineEvent>, i: nat)
    requires i < |events|
    ensures LinesOf(events[..i + 1]) == LinesOf(events[..i]) + EventLines(events[i])
  {
    assert events[..i + 1] == events[..i] + [events[i]];
    LinesAppend(events[..i], events[i]);
  }

  // ----- The durable sink -----

  /** What a sink owns of the store: its segment file, its counter, and the shared table. */
  datatype Sink =
    Sink(streamId: string, file: seq<Byte>, nextSeq: nat, table: seq<MetadataRow>)

  /** A batch to persist, how the file and the table take it, and how long that takes. */
  datatype WriteJob =
    WriteJob(deviceId: string, lines: seq<string>, nowMs: nat, appendOk: bool, insertOk: bool, writeMs: nat)

  predicate Stored(job: WriteJob) {
    job.appendOk && job.insertOk
  }

  function SegmentName(streamId: string): string {
    streamId + ".logseg"
  }

  function BatchRow(sink: Sink, job: WriteJob): MetadataRow {
    MetadataRow(
      sink.streamId, job.deviceId, sink.nextSeq, job.nowMs, |job.lines|,
      SegmentName(sink.streamId), |sink.file|, |BatchBytes(job.lines)|, LevelSummary(job.lines))
  }

  /** Sequence numbers and bytes are consumed as soon as the append succeeds. */
  function Persist(sink: Sink, job: WriteJob): Sink {
    if !job.appendOk then sink
    else
      sink.(file := sink.file + BatchBytes(job.lines),
            nextSeq := sink.nextSeq + |job.lines|,
            table := if job.insertOk then InsertOrdered(sink.table, BatchRow(sink, job)) else sink.table)
  }

  /** What the counters make of a batch that is done with. */
  function Accounted(stats: Stats, job: WriteJob): Stats {
    if Stored(job) then
      Persisted(stats, |job.lines|, |BatchBytes(job.lines)|, job.writeMs, Severities(job.lines))
    else Dropped(stats, |job.lines|)
  }

  class DurableDeviceLogBatchSink {
    const streamId: string
    const writer: DeviceLogSegmentWriter
    const metadata: DeviceLogMetadataStore
    const runtime: DeviceLogRuntimeState
    var nextSeq: nat

    ghost predicate Valid()
      reads this, writer, metadata
    {
      writer.Valid() && metadata.Valid() && writer.segmentFile == SegmentName(streamId)
    }

    ghost function State(): Sink
      reads this, writer, metadata
    {
      Sink(streamId, writer.file, nextSeq, metadata.batches)
    }

    constructor (
        streamId: string, writer: DeviceLogSegmentWriter, metadata: DeviceLogMetadataStore,
        runtime: DeviceLogRuntimeState)
      requires writer.Valid() && metadata.Valid() && writer.segmentFile == SegmentName(streamId)
      ensures Valid() && State() == Sink(streamId, writer.file, 1, metadata.batches)
    {
      this.streamId, this.writer, this.metadata, this.runtime := streamId, writer, metadata, runtime;
      nextSeq := 1;
    }

    /** True when the batch is persisted, false when it is dropped. */
    method PersistQueuedBatch(job: WriteJob) returns (persisted: bool)
      requires Valid()
      modifies this, writer, metadata, runtime
      ensures Valid()
      ensures State() == Persist(old(State()), job)
      ensures persisted <==> Stored(job)
      ensures persisted ==> exists row <- metadata.batches ::
        && row.streamId == streamId && row.deviceId == job.deviceId && row.receivedAtMs == job.nowMs
        && row.firstSeq == old(nextSeq) && row.lineCount == |job.lines| && nextSeq == old(nextSeq) + |job.lines|
        && row.segmentOffset == old(|writer.file|) && row.segmentBytes == |BatchBytes(job.lines)|
      ensures runtime.statsByStream
           == old(runtime.statsByStream)[streamId := Accounted(old(runtime.StatsFor(streamId)), job)]
    {
      var receipt := writer.AppendLines(job.lines, job.appendOk);
      if receipt.Err? {
        runtime.RecordDrop(streamId, |job.lines|);
        return false;
      }
      var firstSeq := nextSeq;
      nextSeq := nextSeq + receipt.value.lineCount;
      var levels := SummarizeLogLevels(job.lines);
      persisted := metadata.InsertBatch(
        MetadataRow(
          streamId, job.deviceId, firstSeq, job.nowMs, receipt.value.lineCount, receipt.value.segmentFile,
          receipt.value.offset, receipt.value.bytes, levels),
        job.insertOk);
      if persisted {
        InsertKeepsOrder(
          old(metadata.batches),
          MetadataRow(
            streamId, job.deviceId, firstSeq, job.nowMs, receipt.value.lineCount, receipt.value.segmentFile,
            receipt.value.offset, receipt.value.bytes, levels));
        var counts := CountLogSeverities(job.lines);
        runtime.RecordPersisted(streamId, receipt.value.lineCount, receipt.value.bytes, job.writeMs, counts);
      } else {
        runtime.RecordDrop(streamId, receipt.value.lineCount);
      }
    }
  }

  // ----- Every run of the sink -----

  datatype SinkEvent = Own(job: WriteJob) | Foreign(row: MetadataRow)

  /** Other streams share the table; their rows arrive in any order. */
  function Step(sink: Sink, event: SinkEvent): Sink {
    match event
    case Own(job) => Persist(sink, job)
    case Foreign(row) =>
      if row.streamId == sink.streamId then sink else sink.(table := InsertOrdered(sink.table, row))
  }

  function Run(sink: Sink, events: seq<SinkEvent>): Sink
    decreases |events|
  {
    if events == [] then sink else Run(Step(sink, events[0]), events[1..])
  }

  predicate IsStored(event: SinkEvent) {
    event.Own? && Stored(event.job)
  }

  /** The batches a run persists, newest first, on top of those already there. */
  function StoredBy(events: seq<SinkEvent>, stored: seq<seq<string>>): seq<seq<string>> {
    if events == [] then stored
    else StoredBy(events[1..], if IsStored(events[0]) then [events[0].job.lines] + stored else stored)
  }

  /** The clock does not step back between the batches of this stream. */
  predicate ClockAdvances(events: seq<SinkEvent>, since: nat) {
    events != [] ==>
      match events[0]
      case Own(job) => since <= job.nowMs && ClockAdvances(events[1..], job.nowMs)
      case Foreign(_) => ClockAdvances(events[1..], since)
  }

  /** The row indexes exactly the bytes of the batch. */
  predicate Backs(file: seq<Byte>, streamId: string, row: MetadataRow, lines: seq<string>) {
    && row.streamId == streamId && row.segmentFile == SegmentName(streamId)
    && row.lineCount == |lines| && row.levels == LevelSummary(lines)
    && row.segmentBytes == |BatchBytes(lines)|
    && row.segmentOffset + row.segmentBytes <= |file|
    && file[row.segmentOffset..row.segmentOffset + row.segmentBytes] == BatchBytes(lines)
  }

  /** `newer` was written after `older`: later numbers, later bytes, not earlier in time. */
  predicate Follows(newer: MetadataRow, older: MetadataRow) {
    && older.firstSeq + older.lineCount <= newer.firstSeq
    && older.segmentOffset + older.segmentBytes <= newer.segmentOffset
    && older.receivedAtMs <= newer.receivedAtMs
  }

  /** The rows, newest first, index the batches, newest first, in disjoint intervals of numbers and bytes. */
  ghost predicate Indexes(
      file: seq<Byte>, streamId: string, rows: seq<MetadataRow>, stored: seq<seq<string>>)
  {
    && |rows| == |stored|
    && (forall i | 0 <= i < |rows| :: Backs(file, streamId, rows[i], stored[i]))
    && forall i, j | 0 <= i < j < |rows| :: Follows(rows[i], rows[j])
  }

  ghost predicate SinkInvariant(sink: Sink, stored: seq<seq<string>>, lastMs: nat) {
    var rows := Filter(sink.table, OfStream(sink.streamId));
    && Ordered(sink.table)
    && Indexes(sink.file, sink.streamId, rows, stored)
    && forall row <- rows ::
         && row.firstSeq + row.lineCount <= sink.nextSeq
         && row.segmentOffset + row.segmentBytes <= |sink.file|
         && row.receivedAtMs <= lastMs
  }

  lemma {:induction false} OwnStepKeeps(sink: Sink, stored: seq<seq<string>>, lastMs: nat, job: WriteJob)
    requires SinkInvariant(sink, stored, lastMs) && lastMs <= job.nowMs
    ensures SinkInvariant(Persist(sink, job), if IsStored(Own(job)) then [job.lines] + stored else stored, job.nowMs)
  {
    hide BatchBytes, LevelSummary, InsertOrdered, Filter, Ordered, Indexes;
    var rows, row := Filter(sink.table, OfStream(sink.streamId)), BatchRow(sink, job);
    var after := Persist(sink, job);
    if job.appendOk {
      StillIndexed(sink.file, BatchBytes(job.lines), sink.streamId, rows, stored);
      if job.insertOk {
        NewlyBacked(sink, job);
        InsertKeepsOrder(sink.table, row);
        FilterInsert(sink.table, row, OfStream(sink.streamId));
        InsertNewest(rows, row);
        assert Filter(after.table, OfStream(sink.streamId)) == [row] + rows;
        NewlyIndexed(after.file, sink.streamId, row, job.lines, rows, stored);
      }
    }
  }

  lemma {:induction false} StillIndexed(
      file: seq<Byte>, more: seq<Byte>, streamId: string, rows: seq<MetadataRow>, stored: seq<seq<string>>)
    requires Indexes(file, streamId, rows, stored)
    ensures Indexes(file + more, streamId, rows, stored)
  {
    hide Backs, Follows;
    forall i | 0 <= i < |rows| ensures Backs(file + more, streamId, rows[i], stored[i]) {
      StillBacked(file, more, streamId, rows[i], stored[i]);
    }
  }

  lemma {:induction false} NewlyIndexed(
      file: seq<Byte>, streamId: string, row: MetadataRow, lines: seq<string>,
      rows: seq<MetadataRow>, stored: seq<seq<string>>)
    requires Indexes(file, streamId, rows, stored) && Backs(file, streamId, row, lines)
    requires forall older <- rows :: Follows(row, older)
    ensures Indexes(file, streamId, [row] + rows, [lines] + stored)
  {
    hide Backs, Follows;
  }

  lemma {:induction false} StillBacked(
      file: seq<Byte>, more: seq<Byte>, streamId: string, row: MetadataRow, lines: seq<string>)
    requires Backs(file, streamId, row, lines)
    ensures Backs(file + more, streamId, row, lines)
  {
    hide BatchBytes, LevelSummary;
    var from, to := row.segmentOffset, row.segmentOffset + row.segmentBytes;
    assert (file + more)[from..to] == file[from..to];
  }

  lemma {:induction false} NewlyBacked(sink: Sink, job: WriteJob)
    ensures Backs(sink.file + BatchBytes(job.lines), sink.streamId, BatchRow(sink, job), job.lines)
  {
    hide BatchBytes, LevelSummary;
    var batch := BatchBytes(job.lines);
    assert (sink.file + batch)[|sink.file|..|sink.file| + |batch|] == batch;
  }

  lemma {:induction false} InsertNewest(rows: seq<MetadataRow>, row: MetadataRow)
    requires forall other <- rows :: other.receivedAtMs <= row.receivedAtMs && other.firstSeq <= row.firstSeq
    ensures InsertOrdered(rows, row) == [row] + rows
  {
    if rows != [] {
      assert rows[0] in rows;
    }
  }

  lemma {:induction false} ForeignStepKeeps(sink: Sink, stored: seq<seq<string>>, lastMs: nat, row: MetadataRow)
    requires SinkInvariant(sink, stored, lastMs) && row.streamId != sink.streamId
    ensures SinkInvariant(sink.(table := InsertOrdered(sink.table, row)), stored, lastMs)
  {
    hide Indexes;
    InsertKeepsOrder(sink.table, row);
    FilterInsert(sink.table, row, OfStream(sink.streamId));
  }

  function LastMs(events: seq<SinkEvent>, since: nat): nat {
    if events == [] then since
    else LastMs(events[1..], match events[0] case Own(job) => job.nowMs case Foreign(_) => since)
  }

  /**
    Over every run of a sink, with any failures and any other streams in the table, the rows of
    the stream index exactly the persisted batches, in order, in disjoint increasing intervals of
    sequence numbers and of bytes, and the bytes of each are still those of its lines.
    */
  lemma {:induction false} EveryRunIndexesItsBatches(
      sink: Sink, stored: seq<seq<string>>, lastMs: nat, events: seq<SinkEvent>)
    requires SinkInvariant(sink, stored, lastMs) && ClockAdvances(events, lastMs)
    ensures Run(sink, events).streamId == sink.streamId
    ensures SinkInvariant(Run(sink, events), StoredBy(events, stored), LastMs(events, lastMs))
    decreases |events|
  {
    hide SinkInvariant;
    if events != [] {
      var next := if IsStored(events[0]) then [events[0].job.lines] + stored else stored;
      match events[0] {
        case Own(job) =>
          OwnStepKeeps(sink, stored, lastMs, job);
          EveryRunIndexesItsBatches(Persist(sink, job), next, job.nowMs, events[1..]);
        case Foreign(row) =>
          if row.streamId != sink.streamId {
            ForeignStepKeeps(sink, stored, lastMs, row);
          }
          EveryRunIndexesItsBatches(Step(sink, events[0]), next, lastMs, events[1..]);
      }
    }
  }

  /** A new sink over a table without rows of its stream starts in the invariant. */
  lemma {:induction false} FreshSink(streamId: string, existing: seq<Byte>, table: seq<MetadataRow>)
    requires Ordered(table) && forall row <- table :: row.streamId != streamId
    ensures SinkInvariant(Sink(streamId, existing, 1, table), [], 0)
  {
    FilterNone(table, OfStream(streamId));
  }

  // ----- What a reader finds -----

  ghost predicate NoLineFeedIn(stored: seq<seq<string>>) {
    forall lines <- stored :: NoLineFeeds(lines)
  }

  /** A batch is read back, with the carriage returns at the ends of its lines gone. */
  lemma {:induction false} BackedBatchReads(
      files: Files, file: seq<Byte>, streamId: string, row: MetadataRow, lines: seq<string>)
    requires Backs(file, streamId, row, lines) && NoLineFeeds(lines)
    requires SegmentName(streamId) in files && files[SegmentName(streamId)] == file
    ensures BatchLines(files, row)
         == if row.segmentBytes > MAX_SEGMENT_READ_BYTES then Err(Fatal) else Ok(StoredLines(lines))
    ensures LevelsCovered(files, row) && |BatchRows(files, row)| <= row.lineCount
  {
    hide LevelSummary, BatchBytes, ReadBytes;
    var from, to := row.segmentOffset, row.segmentOffset + row.segmentBytes;
    assert file == file[..from] + BatchBytes(lines) + file[to..];
    ReadBack(file[..from], lines, file[to..]);
    SummaryIsTheSetOfLevels(lines);
    forall stored <- StoredLines(lines) ensures LevelFromLine(stored) in LevelSummary(lines) {
      var i :| 0 <= i < |lines| && StoredLines(lines)[i] == stored;
      StrippedLevel(lines[i]);
      assert lines[i] in lines;
    }
  }

  /** What the sink wrote meets the assumptions of a query; none of it is stale. */
  lemma {:induction false} WrittenStoreIsSound(files: Files, sink: Sink, stored: seq<seq<string>>, lastMs: nat)
    requires SinkInvariant(sink, stored, lastMs) && NoLineFeedIn(stored)
    requires SegmentName(sink.streamId) in files && files[SegmentName(sink.streamId)] == sink.file
    ensures Sound(files, Filter(sink.table, OfStream(sink.streamId)))
    ensures forall batch <- Filter(sink.table, OfStream(sink.streamId)) :: !IsStale(files, batch)
  {
    hide LevelsCovered, BatchRows, BatchLines, Filter, Backs, Ordered, NoLineFeeds;
    var rows := Filter(sink.table, OfStream(sink.streamId));
    forall i | 0 <= i < |rows|
      ensures LevelsCovered(files, rows[i]) && !IsStale(files, rows[i])
      ensures |BatchRows(files, rows[i])| <= rows[i].lineCount
    {
      assert stored[i] in stored;
      BackedBatchReads(files, sink.file, sink.streamId, rows[i], stored[i]);
    }
    RowsDescend(files, rows);
  }

  lemma {:induction false} RowsDescend(files: Files, rows: seq<MetadataRow>)
    requires forall i, j | 0 <= i < j < |rows| :: Follows(rows[i], rows[j])
    requires forall i | 0 <= i < |rows| :: |BatchRows(files, rows[i])| <= rows[i].lineCount
    ensures SeqDescending(files, rows)
  {
    hide BatchRows;
    if rows != [] {
      RowsDescend(files, rows[1..]);
    }
  }

  /** The lines of the batches, oldest first. */
  function OldestFirst(stored: seq<seq<string>>): seq<string> {
    if stored == [] then [] else OldestFirst(stored[1..]) + stored[0]
  }

  function RawLines(rows: seq<QueryRow>): seq<string> {
    if rows == [] then [] else [rows[0].raw] + RawLines(rows[1..])
  }

  lemma {:induction false} RawConcat(a: seq<QueryRow>, b: seq<QueryRow>)
    ensures RawLines(a + b) == RawLines(a) + RawLines(b)
  {
    if a == [] {
      assert a + b == b;
    } else {
      assert (a + b)[1..] == a[1..] + b;
      RawConcat(a[1..], b);
    }
  }

  lemma {:induction false} RawOfParsed(firstSeq: nat, receivedAtMs: nat, lines: seq<string>)
    ensures RawLines(ParseRows(firstSeq, receivedAtMs, lines)) == lines
    decreases |lines|
  {
    if lines != [] {
      var row, rest := ParseQueryRow(firstSeq, receivedAtMs, lines[0]), ParseRows(firstSeq + 1, receivedAtMs, lines[1..]);
      assert ([row] + rest)[1..] == rest;
      RawOfParsed(firstSeq + 1, receivedAtMs, lines[1..]);
    }
  }

  lemma {:induction false} StoredConcat(a: seq<string>, b: seq<string>)
    ensures StoredLines(a + b) == StoredLines(a) + StoredLines(b)
  {
  }

  /** Reading every batch back gives every persisted line, once and in the order it was written. */
  lemma {:induction false} RowsAreThePersistedLines(
      files: Files, file: seq<Byte>, streamId: string, rows: seq<MetadataRow>, stored: seq<seq<string>>)
    requires Indexes(file, streamId, rows, stored) && NoLineFeedIn(stored)
    requires SegmentName(streamId) in files && files[SegmentName(streamId)] == file
    requires forall row <- rows :: row.segmentBytes <= MAX_SEGMENT_READ_BYTES
    ensures RawLines(AllRows(files, rows)) == StoredLines(OldestFirst(stored))
  {
    hide BatchLines, Backs, NoLineFeeds, ParseRows;
    if rows != [] {
      assert rows[0] in rows && stored[0] in stored;
      RowsAreThePersistedLines(files, file, streamId, rows[1..], stored[1..]);
      BackedBatchReads(files, file, streamId, rows[0], stored[0]);
      RawOfParsed(rows[0].firstSeq, rows[0].receivedAtMs, StoredLines(stored[0]));
      RawConcat(AllRows(files, rows[1..]), BatchRows(files, rows[0]));
      StoredConcat(OldestFirst(stored[1..]), stored[0]);
    }
  }
}
