/** The runtime counters of each stream, as the status strip shows them. */
module DeviceLogRuntime {
  import opened DeviceLogLine

  const SLOW_WRITE_BATCH_MS: nat := 10
  const BACKPRESSURE_HIGH_WATERMARK: nat := 100
  const BACKPRESSURE_LOW_WATERMARK: nat := 25

  datatype Backpressure = Idle | Buffering | Saturated | Dropping

  datatype Stats = Stats(
    ingestedLines: nat, persistedLines: nat, droppedLines: nat, pendingBatches: nat, bufferBytes: nat,
    backpressure: Backpressure, lastWriteMs: nat, slowWriteBatches: nat, severities: SeverityCounts)

  const NO_STATS: Stats := Stats(0, 0, 0, 0, 0, Idle, 0, 0, SeverityCounts(0, 0, 0))

  function SaturatingSub(a: nat, b: nat): nat {
    if a < b then 0 else a - b
  }

  /** Hysteresis: saturated from the high mark, and then until below the low one. */
  function Refreshed(stats: Stats): (updated: Stats)
    ensures updated == stats.(backpressure := updated.backpressure)
    ensures updated.backpressure == Idle <==> stats.pendingBatches == 0
    ensures stats.pendingBatches >= BACKPRESSURE_HIGH_WATERMARK ==> updated.backpressure == Saturated
    ensures stats.pendingBatches < BACKPRESSURE_LOW_WATERMARK ==> updated.backpressure != Saturated
    // between the marks a stream stays saturated, or stays clear of it
    ensures BACKPRESSURE_LOW_WATERMARK <= stats.pendingBatches < BACKPRESSURE_HIGH_WATERMARK ==>
      (updated.backpressure == Saturated <==> stats.backpressure == Saturated)
    ensures updated.backpressure != Dropping
  {
    stats.(backpressure :=
      if stats.pendingBatches == 0 then Idle
      else if stats.pendingBatches >= BACKPRESSURE_HIGH_WATERMARK then Saturated
      else if stats.backpressure == Saturated && stats.pendingBatches >= BACKPRESSURE_LOW_WATERMARK then Saturated
      else Buffering)
  }

  function Ingested(stats: Stats, lines: nat): Stats {
    stats.(ingestedLines := stats.ingestedLines + lines)
  }

  function BatchQueued(stats: Stats): Stats {
    Refreshed(stats.(pendingBatches := stats.pendingBatches + 1))
  }

  function Persisted(stats: Stats, lines: nat, bytes: nat, writeMs: nat, severities: SeverityCounts): Stats {
    Refreshed(stats.(
      persistedLines := stats.persistedLines + lines,
      pendingBatches := SaturatingSub(stats.pendingBatches, 1),
      bufferBytes := stats.bufferBytes + bytes,
      lastWriteMs := writeMs,
      slowWriteBatches := stats.slowWriteBatches + (if IsSlow(writeMs) then 1 else 0),
      severities := AddSeverities(stats.severities, severities)))
  }

  predicate IsSlow(writeMs: nat) {
    writeMs >= SLOW_WRITE_BATCH_MS
  }

  function Dropped(stats: Stats, lines: nat): (updated: Stats)
    ensures updated.backpressure == Dropping && updated.droppedLines >= lines
    ensures stats.pendingBatches > 0 ==> updated.pendingBatches == stats.pendingBatches - 1
    ensures updated.persistedLines == stats.persistedLines && updated.bufferBytes == stats.bufferBytes
  {
    stats.(
      droppedLines := stats.droppedLines + lines,
      pendingBatches := SaturatingSub(stats.pendingBatches, 1),
      backpressure := Dropping)
  }

  /** The map behind the lock: every update touches one stream. */
  class DeviceLogRuntimeState {
    var statsByStream: map<string, Stats>

    constructor ()
      ensures statsByStream == map[]
    {
      statsByStream := map[];
    }

    function StatsFor(streamId: string): Stats
      reads this
    {
      if streamId in statsByStream then statsByStream[streamId] else NO_STATS
    }

    method RecordIngested(streamId: string, lines: nat)
      modifies this
      ensures statsByStream == old(statsByStream)[streamId := Ingested(old(StatsFor(streamId)), lines)]
    {
      var stats := StatsFor(streamId);
      statsByStream := statsByStream[streamId := stats.(ingestedLines := stats.ingestedLines + lines)];
    }

    method RecordBatchQueued(streamId: string)
      modifies this
      ensures statsByStream == old(statsByStream)[streamId := BatchQueued(old(StatsFor(streamId)))]
    {
      var stats := StatsFor(streamId);
      stats := stats.(pendingBatches := stats.pendingBatches + 1);
      statsByStream := statsByStream[streamId := Refreshed(stats)];
    }

    method RecordPersisted(streamId: string, lines: nat, bytes: nat, writeMs: nat, counts: SeverityCounts)
      modifies this
      ensures statsByStream
           == old(statsByStream)[streamId := Persisted(old(StatsFor(streamId)), lines, bytes, writeMs, counts)]
    {
      var stats := StatsFor(streamId);
      stats := stats.(persistedLines := stats.persistedLines + lines);
      stats := stats.(pendingBatches := SaturatingSub(stats.pendingBatches, 1));
      stats := stats.(bufferBytes := stats.bufferBytes + bytes, lastWriteMs := writeMs);
      stats := stats.(severities := SeverityCounts(
        stats.severities.warn + counts.warn, stats.severities.error + counts.error,
        stats.severities.fatal + counts.fatal));
      if writeMs >= SLOW_WRITE_BATCH_MS {
        stats := stats.(slowWriteBatches := stats.slowWriteBatches + 1);
      }
      statsByStream := statsByStream[streamId := Refreshed(stats)];
    }

    method RecordDrop(streamId: string, lines: nat)
      modifies this
      ensures statsByStream == old(statsByStream)[streamId := Dropped(old(StatsFor(streamId)), lines)]
    {
      var stats := StatsFor(streamId);
      stats := stats.(droppedLines := stats.droppedLines + lines);
      stats := stats.(pendingBatches := SaturatingSub(stats.pendingBatches, 1), backpressure := Dropping);
      statsByStream := statsByStream[streamId := stats];
    }
  }
}
