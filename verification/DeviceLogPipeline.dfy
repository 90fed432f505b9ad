/**
  The writer pipeline of one stream: producers count and send batches, one worker persists them,
  and the runtime counters account for every line at every step.
  */
module DeviceLogPipeline {
  import opened Sequences
  import opened DeviceLogLine
  import opened DeviceLogSegment
  import opened DeviceLogMetadata
  import opened DeviceLogQuery
  import opened DeviceLogStoreView
  import opened DeviceLogRuntime
  import opened DeviceLogWriter

  // ----- Producers, queue and worker -----

  /** `entered` producers have counted their lines, `counted` ones also their batch; neither has sent yet. */
  datatype Pipeline = Pipeline(
    stats: Stats, entered: seq<WriteJob>, counted: seq<WriteJob>, queue: seq<WriteJob>, working: Option<WriteJob>,
    stopped: bool, lost: seq<WriteJob>, sent: seq<WriteJob>, finished: seq<WriteJob>, sink: Sink)

  /** One atomic step of some thread; `index` picks a producer. */
  datatype Action =
    | Enter(job: WriteJob)
    | Count(index: nat)
    | Send(index: nat)
    | Take
    | Finish
    | StopWorker

  function RemoveAt<T>(s: seq<T>, i: nat): seq<T>
    requires i < |s|
  {
    s[..i] + s[i + 1..]
  }

  function Working(p: Pipeline): seq<WriteJob> {
    match p.working case None => [] case Some(job) => [job]
  }

  function Finished(p: Pipeline, job: WriteJob): Pipeline {
    p.(stats := Accounted(p.stats, job), working := None, finished := p.finished + [job],
       sink := Persist(p.sink, job))
  }

  /** A queue without room for a single batch takes one only for a worker that waits for it. */
  predicate HasRoom(p: Pipeline, capacity: nat) {
    |p.queue| < capacity || (capacity == 0 && p.queue == [] && p.working.None?)
  }

  /** A step that is not enabled leaves the state alone; a bounded queue blocks its senders. */
  function Next(p: Pipeline, action: Action, capacity: nat): Pipeline {
    match action
    case Enter(job) =>
      p.(stats := Ingested(p.stats, |job.lines|), entered := p.entered + [job])
    case Count(i) =>
      if i >= |p.entered| then p
      else
        p.(stats := BatchQueued(p.stats), entered := RemoveAt(p.entered, i), counted := p.counted + [p.entered[i]])
    case Send(i) =>
      if i >= |p.counted| then p
      else if p.stopped then
        p.(stats := Dropped(p.stats, |p.counted[i].lines|), counted := RemoveAt(p.counted, i))
      else if !HasRoom(p, capacity) then p
      else
        p.(counted := RemoveAt(p.counted, i), queue := p.queue + [p.counted[i]], sent := p.sent + [p.counted[i]])
    case Take =>
      if p.stopped || p.working.Some? || p.queue == [] then p
      else p.(working := Some(p.queue[0]), queue := p.queue[1..])
    case Finish =>
      if p.working.None? then p else Finished(p, p.working.value)
    case StopWorker =>
      p.(stopped := true, lost := p.lost + Working(p) + p.queue, working := None, queue := [])
  }

  function RunAll(p: Pipeline, actions: seq<Action>, capacity: nat): Pipeline
    decreases |actions|
  {
    if actions == [] then p else RunAll(Next(p, actions[0], capacity), actions[1..], capacity)
  }

  function Start(sink: Sink): Pipeline {
    Pipeline(NO_STATS, [], [], [], None, false, [], [], [], sink)
  }

  // ----- What every step keeps -----

  function Lines(jobs: seq<WriteJob>): nat {
    if jobs == [] then 0 else |jobs[0].lines| + Lines(jobs[1..])
  }

  function StoredBytes(jobs: seq<WriteJob>): nat {
    if jobs == [] then 0
    else (if Stored(jobs[0]) then |BatchBytes(jobs[0].lines)| else 0) + StoredBytes(jobs[1..])
  }

  /** The lines of the jobs that were stored, in the order the jobs finished. */
  function StoredJobLines(jobs: seq<WriteJob>): seq<string> {
    if jobs == [] then []
    else
      var last := jobs[|jobs| - 1];
      StoredJobLines(jobs[..|jobs| - 1]) + if Stored(last) then last.lines else []
  }

  /** The stored jobs that took long to write. */
  function SlowJobs(jobs: seq<WriteJob>): nat {
    if jobs == [] then 0
    else
      var last := jobs[|jobs| - 1];
      SlowJobs(jobs[..|jobs| - 1]) + if Stored(last) && last.writeMs >= 10 then 1 else 0
  }

  /** How long the last stored job took. */
  function LastWrite(jobs: seq<WriteJob>): nat {
    if jobs == [] then 0
    else
      var last := jobs[|jobs| - 1];
      if Stored(last) then last.writeMs else LastWrite(jobs[..|jobs| - 1])
  }

  function PersistAll(sink: Sink, jobs: seq<WriteJob>): Sink {
    if jobs == [] then sink else Persist(PersistAll(sink, jobs[..|jobs| - 1]), jobs[|jobs| - 1])
  }

  /** What the counters say of the batches that are done with. */
  ghost predicate Describes(stats: Stats, finished: seq<WriteJob>) {
    && stats.bufferBytes == StoredBytes(finished)
    && stats.severities == Severities(StoredJobLines(finished))
    && stats.slowWriteBatches == SlowJobs(finished) && stats.lastWriteMs == LastWrite(finished)
  }

  ghost predicate Conserved(p: Pipeline, start: Sink) {
    // every ingested line is persisted, dropped, on its way, or lost with the worker
    && p.stats.ingestedLines == p.stats.persistedLines + p.stats.droppedLines
         + Lines(p.entered) + Lines(p.counted) + Lines(p.queue) + Lines(Working(p)) + Lines(p.lost)
    // a pending batch is one that was counted and has not finished
    && p.stats.pendingBatches == |p.counted| + |p.queue| + |Working(p)| + |p.lost|
    && Describes(p.stats, p.finished)
    // jobs finish in the order they were sent, and the store is what persisting them makes
    && p.sent == p.finished + (p.lost + Working(p) + p.queue)
    && (p.lost != [] ==> p.stopped)
    && (p.stopped ==> p.working.None? && p.queue == [])
    && p.sink == PersistAll(start, p.finished)
  }

  lemma {:induction false} LinesConcat(a: seq<WriteJob>, b: seq<WriteJob>)
    ensures Lines(a + b) == Lines(a) + Lines(b)
  {
    if a == [] {
      assert a + b == b;
    } else {
      assert (a + b)[1..] == a[1..] + b;
      LinesConcat(a[1..], b);
    }
  }

  lemma {:induction false} LinesAdd(jobs: seq<WriteJob>, job: WriteJob)
    ensures Lines(jobs + [job]) == Lines(jobs) + |job.lines|
  {
    LinesConcat(jobs, [job]);
  }

  lemma {:induction false} LinesRemove(jobs: seq<WriteJob>, i: nat)
    requires i < |jobs|
    ensures Lines(jobs) == |jobs[i].lines| + Lines(RemoveAt(jobs, i)) && |RemoveAt(jobs, i)| == |jobs| - 1
  {
    assert jobs == jobs[..i] + [jobs[i]] + jobs[i + 1..];
    LinesConcat(jobs[..i] + [jobs[i]], jobs[i + 1..]);
    LinesAdd(jobs[..i], jobs[i]);
    LinesConcat(jobs[..i], jobs[i + 1..]);
  }

  lemma {:induction false} StoredBytesAdd(jobs: seq<WriteJob>, job: WriteJob)
    ensures StoredBytes(jobs + [job])
         == StoredBytes(jobs) + if Stored(job) then |BatchBytes(job.lines)| else 0
  {
    hide BatchBytes;
    if jobs == [] {
      assert [job][1..] == [];
    } else {
      assert (jobs + [job])[1..] == jobs[1..] + [job];
      StoredBytesAdd(jobs[1..], job);
    }
  }

  lemma {:induction false} DescribesOneMore(stats: Stats, finished: seq<WriteJob>, job: WriteJob)
    requires Describes(stats, finished)
    ensures Describes(Accounted(stats, job), finished + [job])
  {
    hide BatchBytes, StoredBytes, Severities;
    assert (finished + [job])[..|finished|] == finished;
    StoredBytesAdd(finished, job);
    SeveritiesConcat(StoredJobLines(finished), job.lines);
    assert StoredJobLines(finished) + [] == StoredJobLines(finished);
  }

  lemma {:induction false} ProducerStepConserves(p: Pipeline, action: Action, capacity: nat, start: Sink)
    requires Conserved(p, start) && (action.Enter? || action.Count? || action.Send?)
    ensures Conserved(Next(p, action, capacity), start)
  {
    hide RemoveAt, Lines, StoredBytes, StoredJobLines, SlowJobs, LastWrite, Severities, PersistAll;
    match action {
      case Enter(job) =>
        LinesAdd(p.entered, job);
      case Count(i) =>
        if i < |p.entered| {
          LinesRemove(p.entered, i);
          LinesAdd(p.counted, p.entered[i]);
        }
      case Send(i) =>
        if i < |p.counted| {
          LinesRemove(p.counted, i);
          LinesAdd(p.queue, p.counted[i]);
        }
    }
  }

  lemma {:induction false} HandOver<T>(before: seq<T>, head: T, rest: seq<T>, queue: seq<T>)
    requires queue != [] && head == queue[0] && rest == queue[1..]
    ensures before + [] + queue == before + [head] + rest
  {
  }

  lemma {:induction false} TakeConserves(p: Pipeline, capacity: nat, start: Sink)
    requires Conserved(p, start)
    ensures Conserved(Next(p, Take, capacity), start)
  {
    if p.queue != [] {
      var head, rest := p.queue[0], p.queue[1..];
      assert Lines(p.queue) == |head.lines| + Lines(rest);
      NoLines(head);
      hide Describes, PersistAll, Lines, Persist;
      if p.working.None? {
        HandOver(p.lost, head, rest, p.queue);
      }
    }
  }

  lemma {:induction false} FinishConserves(p: Pipeline, start: Sink)
    requires Conserved(p, start) && p.working.Some?
    ensures Conserved(Finished(p, p.working.value), start)
  {
    hide BatchBytes, Persist, PersistAll, Describes, Lines, Severities;
    var job := p.working.value;
    assert p.lost == [] && Working(p) == [job];
    NoLines(job);
    DescribesOneMore(p.stats, p.finished, job);
    PersistOneMore(start, p.finished, job);
    assert p.sent == p.finished + [job] + p.queue by {
      assert [] + [job] + p.queue == [job] + p.queue;
    }
  }

  lemma {:induction false} NoLines(job: WriteJob)
    ensures Lines([]) == 0 && Lines([job]) == |job.lines|
  {
  }

  lemma {:induction false} PersistOneMore(sink: Sink, jobs: seq<WriteJob>, job: WriteJob)
    ensures PersistAll(sink, jobs + [job]) == Persist(PersistAll(sink, jobs), job)
  {
    hide Persist;
    assert (jobs + [job])[..|jobs|] == jobs;
  }

  lemma {:induction false} StopConserves(p: Pipeline, capacity: nat, start: Sink)
    requires Conserved(p, start)
    ensures Conserved(Next(p, StopWorker, capacity), start)
  {
    hide Describes, PersistAll;
    var lost := p.lost + Working(p) + p.queue;
    LinesConcat(p.lost + Working(p), p.queue);
    LinesConcat(p.lost, Working(p));
    assert lost + [] + [] == lost;
  }

  /** One step of any thread. The saturating subtraction never saturates: a finishing batch is pending. */
  lemma {:induction false} StepConserves(p: Pipeline, action: Action, capacity: nat, start: Sink)
    requires Conserved(p, start)
    ensures Conserved(Next(p, action, capacity), start)
    ensures action == Finish && p.working.Some? ==> p.stats.pendingBatches > 0
    ensures action.Send? && action.index < |p.counted| && p.stopped ==> p.stats.pendingBatches > 0
  {
    match action {
      case Take =>
        TakeConserves(p, capacity, start);
      case Finish =>
        if p.working.Some? {
          FinishConserves(p, start);
        }
      case StopWorker =>
        StopConserves(p, capacity, start);
      case _ =>
        ProducerStepConserves(p, action, capacity, start);
    }
  }

  lemma {:induction false} StartConserves(sink: Sink)
    ensures Conserved(Start(sink), sink)
  {
  }

  lemma {:induction false} RunConserves(p: Pipeline, actions: seq<Action>, capacity: nat, start: Sink)
    requires Conserved(p, start)
    ensures Conserved(RunAll(p, actions, capacity), start)
    decreases |actions|
  {
    hide Conserved, Next;
    if actions != [] {
      StepConserves(p, actions[0], capacity, start);
      RunConserves(Next(p, actions[0], capacity), actions[1..], capacity, start);
    }
  }

  predicate Quiescent(p: Pipeline) {
    p.entered == [] && p.counted == [] && p.queue == [] && p.working.None?
  }

  /**
    Whenever all is quiet, after any interleaving of producers and worker: ingested lines equal
    persisted plus dropped, nothing is pending, and the store holds the sent batches in the order
    they were sent. The one exception is a worker that stopped over a queue: what it held stays
    pending and uncounted for ever.
    */
  lemma {:induction false} QuiescentPipelineAccountsForEveryLine(
      sink: Sink, actions: seq<Action>, capacity: nat)
    ensures var p := RunAll(Start(sink), actions, capacity);
      Quiescent(p) ==>
        && p.stats.ingestedLines == p.stats.persistedLines + p.stats.droppedLines + Lines(p.lost)
        && p.stats.pendingBatches == |p.lost|
        && (p.lost == [] <==> p.sent == p.finished)
        && p.sink == PersistAll(sink, p.finished)
        && Describes(p.stats, p.finished)
  {
    StartConserves(sink);
    RunConserves(Start(sink), actions, capacity, sink);
  }

  // ----- What a worker that stops leaves behind -----

  /** Somewhere in the run the worker stops while a batch is queued or in its hands. */
  predicate StopsOverWork(p: Pipeline, actions: seq<Action>, capacity: nat)
    decreases |actions|
  {
    && actions != []
    && ((actions[0].StopWorker? && (p.queue != [] || p.working.Some?))
        || StopsOverWork(Next(p, actions[0], capacity), actions[1..], capacity))
  }

  lemma {:induction false} LostExactly(p: Pipeline, actions: seq<Action>, capacity: nat)
    ensures RunAll(p, actions, capacity).lost != [] <==> p.lost != [] || StopsOverWork(p, actions, capacity)
    decreases |actions|
  {
    if actions != [] {
      LostExactly(Next(p, actions[0], capacity), actions[1..], capacity);
    }
  }

  /**
    Once all is quiet, the counters account for every line with nothing pending exactly if the worker
    never stopped over work; so in particular if it stops only when its queue is empty.
    */
  lemma {:induction false} EveryLineIsCountedExactly(sink: Sink, actions: seq<Action>, capacity: nat)
    requires Quiescent(RunAll(Start(sink), actions, capacity))
    ensures var p := RunAll(Start(sink), actions, capacity);
      !StopsOverWork(Start(sink), actions, capacity)
      <==> p.stats.ingestedLines == p.stats.persistedLines + p.stats.droppedLines && p.stats.pendingBatches == 0
  {
    hide RunAll, StopsOverWork, Describes;
    QuiescentPipelineAccountsForEveryLine(sink, actions, capacity);
    LostExactly(Start(sink), actions, capacity);
    NoLines(WriteJob("", [], 0, true, true, 0));
  }

  /** A producer sends a batch and the worker stops before it takes it. */
  function StopsEarly(job: WriteJob): seq<Action> {
    [Enter(job), Count(0), Send(0), StopWorker]
  }

  /** All is quiet, and the batch is neither stored nor dropped but pending for ever. */
  lemma {:induction false} EarlyStopLosesBatch(sink: Sink, job: WriteJob, capacity: nat)
    ensures StopsOverWork(Start(sink), StopsEarly(job), capacity)
    ensures var p := RunAll(Start(sink), StopsEarly(job), capacity);
      && Quiescent(p) && p.lost == [job] && p.sink == sink
      && p.stats.ingestedLines == |job.lines| && p.stats.persistedLines == p.stats.droppedLines == 0
      && p.stats.pendingBatches == 1
  {
    var start, actions := Start(sink), StopsEarly(job);
    var entered := Next(start, actions[0], capacity);
    var counted := Next(entered, actions[1], capacity);
    var sent := Next(counted, actions[2], capacity);
    var stopped := Next(sent, actions[3], capacity);
    assert sent.queue == [job] && sent.counted == [] && sent.entered == [] && sent.working.None?;
    hide Next;
    assert actions[1..][1..] == [Send(0), StopWorker] && actions[1..][1..][1..] == [StopWorker];
    OneStep(sent, StopWorker, capacity);
    assert RunAll(counted, [Send(0), StopWorker], capacity) == stopped
      && StopsOverWork(counted, [Send(0), StopWorker], capacity);
    assert RunAll(entered, actions[1..], capacity) == stopped && StopsOverWork(entered, actions[1..], capacity);
  }

  lemma {:induction false} OneStep(p: Pipeline, action: Action, capacity: nat)
    ensures RunAll(p, [action], capacity) == Next(p, action, capacity)
    ensures StopsOverWork(p, [action], capacity) <==> action.StopWorker? && (p.queue != [] || p.working.Some?)
  {
    assert [action][1..] == [];
  }

  // ----- What the store holds -----

  /** Persisting jobs one by one is a run of the sink, so its rows index the batches it stored. */
  function OwnEvents(jobs: seq<WriteJob>): seq<SinkEvent> {
    if jobs == [] then [] else OwnEvents(jobs[..|jobs| - 1]) + [Own(jobs[|jobs| - 1])]
  }

  lemma {:induction false} RunAppend(sink: Sink, events: seq<SinkEvent>, last: SinkEvent)
    ensures Run(sink, events + [last]) == Step(Run(sink, events), last)
    decreases |events|
  {
    hide Step;
    if events == [] {
      assert ([last])[1..] == [];
    } else {
      assert (events + [last])[1..] == events[1..] + [last];
      RunAppend(Step(sink, events[0]), events[1..], last);
    }
  }

  lemma {:induction false} PersistAllIsARun(sink: Sink, jobs: seq<WriteJob>)
    ensures PersistAll(sink, jobs) == Run(sink, OwnEvents(jobs))
    decreases |jobs|
  {
    hide Persist;
    if jobs != [] {
      PersistAllIsARun(sink, jobs[..|jobs| - 1]);
      RunAppend(sink, OwnEvents(jobs[..|jobs| - 1]), Own(jobs[|jobs| - 1]));
    }
  }

  lemma {:induction false} StoredByAppend(events: seq<SinkEvent>, stored: seq<seq<string>>, last: SinkEvent)
    ensures StoredBy(events + [last], stored)
         == (if IsStored(last) then [last.job.lines] else []) + StoredBy(events, stored)
    decreases |events|
  {
    if events == [] {
      assert ([last])[1..] == [];
    } else {
      assert (events + [last])[1..] == events[1..] + [last];
      StoredByAppend(events[1..], if IsStored(events[0]) then [events[0].job.lines] + stored else stored, last);
    }
  }

  lemma {:induction false} StoredByNext(jobs: seq<WriteJob>)
    requires jobs != []
    ensures var init, last := jobs[..|jobs| - 1], jobs[|jobs| - 1];
      StoredBy(OwnEvents(jobs), [])
      == if Stored(last) then [last.lines] + StoredBy(OwnEvents(init), []) else StoredBy(OwnEvents(init), [])
  {
    var init, last := jobs[..|jobs| - 1], jobs[|jobs| - 1];
    assert IsStored(Own(last)) == Stored(last) && Own(last).job == last;
    hide StoredBy, IsStored, Stored;
    StoredByAppend(OwnEvents(init), [], Own(last));
    assert [] + StoredBy(OwnEvents(init), []) == StoredBy(OwnEvents(init), []);
  }

  lemma {:induction false} StoredBatchesOf(jobs: seq<WriteJob>)
    ensures OldestFirst(StoredBy(OwnEvents(jobs), [])) == StoredJobLines(jobs)
    ensures (forall job <- jobs :: NoLineFeeds(job.lines)) ==> NoLineFeedIn(StoredBy(OwnEvents(jobs), []))
    decreases |jobs|
  {
    if jobs != [] {
      var init, last := jobs[..|jobs| - 1], jobs[|jobs| - 1];
      assert jobs == init + [last];
      var before := StoredBy(OwnEvents(init), []);
      StoredByNext(jobs);
      StoredBatchesOf(init);
      assert ([last.lines] + before)[1..] == before;
      hide NoLineFeeds, StoredBy, OwnEvents, Stored;
    }
  }

  /**
    End to end. Let any interleaving of producers and worker run over a fresh sink, with lines free
    of line feeds and a clock that does not step back. Then the sink is in its invariant, the store
    meets what a query assumes, and the rows of the stream are exactly the lines of the batches stored, in the order they were
    sent, each without a trailing carriage return.
    */
  lemma {:induction false} PipelineFeedsQueries(
      streamId: string, table: seq<MetadataRow>, actions: seq<Action>, capacity: nat,
      files: Files)
    requires Ordered(table) && forall row <- table :: row.streamId != streamId
    requires var p := RunAll(Start(Sink(streamId, [], 1, table)), actions, capacity);
      && ClockAdvances(OwnEvents(p.finished), 0)
      && (forall job <- p.finished :: NoLineFeeds(job.lines))
      && SegmentName(streamId) in files && files[SegmentName(streamId)] == p.sink.file
    ensures var p := RunAll(Start(Sink(streamId, [], 1, table)), actions, capacity);
      && p.finished <= p.sent
      && SinkInvariant(p.sink, StoredBy(OwnEvents(p.finished), []), LastMs(OwnEvents(p.finished), 0))
      && var rows := Filter(p.sink.table, OfStream(streamId));
         && Sound(files, rows)
         && ((forall row <- rows :: row.segmentBytes <= MAX_SEGMENT_READ_BYTES) ==>
               RawLines(AllRows(files, rows)) == StoredLines(StoredJobLines(p.finished)))
  {
    hide RunAll, Run, Sound, Indexes, StoredJobLines, OldestFirst, ClockAdvances, AllRows, NoLineFeeds, StoredBy;
    var sink := Sink(streamId, [], 1, table);
    var p := RunAll(Start(sink), actions, capacity);
    StartConserves(sink);
    RunConserves(Start(sink), actions, capacity, sink);
    PersistAllIsARun(sink, p.finished);
    FreshSink(streamId, [], table);
    var events := OwnEvents(p.finished);
    EveryRunIndexesItsBatches(sink, [], 0, events);
    StoredBatchesOf(p.finished);
    var stored, rows := StoredBy(events, []), Filter(p.sink.table, OfStream(streamId));
    WrittenStoreIsSound(files, p.sink, stored, LastMs(events, 0));
    if forall row <- rows :: row.segmentBytes <= MAX_SEGMENT_READ_BYTES {
      RowsAreThePersistedLines(files, p.sink.file, streamId, rows, stored);
    }
  }
}
