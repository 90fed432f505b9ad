/** The latest-wins query worker: one thread, one queue, and a generation per stream that cancels older queries. */
module DeviceLogQueryWorker {
  import opened Sequences
  import opened DeviceLogLine
  import opened DeviceLogSegment
  import opened DeviceLogMetadata
  import opened DeviceLogQuery

  const QUERY_WORKER_EVENT_LIMIT: nat := 64

  /** A query holds the generation it began with. */
  datatype Token = Token(streamId: string, value: nat)

  datatype Job = Job(token: Token, query: string)

  datatype Outcome = CompletedQuery | CancelledQuery | FailedQuery(error: string)

  function OutcomeOf(response: Result<Response, string>): Outcome {
    match response
    case Ok(answer) => if answer.stopReason.Cancelled? then CancelledQuery else CompletedQuery
    case Err(error) => FailedQuery(error)
  }

  datatype WorkerStats = WorkerStats(
    queued: nat, running: bool, completedQueries: nat, cancelledQueries: nat, failedQueries: nat,
    lastQueryMs: nat, lastError: Option<string>)

  datatype Event = Event(sequence: nat, streamId: string, query: string, outcome: Outcome, durationMs: nat)

  /** The shared state behind the locks and atomics. */
  datatype Shared = Shared(
    generations: map<string, nat>, stats: WorkerStats, events: seq<Event>, nextEventSequence: nat)

  function Generation(generations: map<string, nat>, streamId: string): nat {
    if streamId in generations then generations[streamId] else 0
  }

  predicate Superseded(generations: map<string, nat>, token: Token) {
    Generation(generations, token.streamId) != token.value
  }

  // ----- The atomic steps on the shared state -----

  function Begun(generations: map<string, nat>, streamId: string): map<string, nat> {
    generations[streamId := Generation(generations, streamId) + 1]
  }

  function Started(stats: WorkerStats): WorkerStats {
    stats.(queued := if stats.queued == 0 then 0 else stats.queued - 1, running := true)
  }

  function FinishedStats(stats: WorkerStats, outcome: Outcome, queryMs: nat): WorkerStats {
    var rest := stats.(running := false, lastQueryMs := queryMs);
    match outcome
    case CancelledQuery => rest.(cancelledQueries := stats.cancelledQueries + 1, lastError := None)
    case CompletedQuery => rest.(completedQueries := stats.completedQueries + 1, lastError := None)
    case FailedQuery(error) => rest.(failedQueries := stats.failedQueries + 1, lastError := Some(error))
  }

  /** The newest `limit` entries. */
  function Newest<T>(s: seq<T>, limit: nat): seq<T> {
    if |s| <= limit then s else s[|s| - limit..]
  }

  class QueryWorker {
    var generations: map<string, nat>
    var stats: WorkerStats
    var events: seq<Event>
    var nextEventSequence: nat

    function State(): Shared
      reads this
    {
      Shared(generations, stats, events, nextEventSequence)
    }

    constructor ()
      ensures State() == InitialShared()
    {
      generations, events, nextEventSequence := map[], [], 1;
      stats := WorkerStats(0, false, 0, 0, 0, 0, None);
    }

    method Begin(streamId: string) returns (token: Token)
      modifies this
      ensures State() == old(State()).(generations := Begun(old(generations), streamId))
      ensures token == Token(streamId, Generation(generations, streamId)) && !Superseded(generations, token)
      ensures token.value == (if streamId in old(generations) then old(generations)[streamId] + 1 else 1)
      ensures generations == old(generations)[streamId := token.value]
    {
      if streamId !in generations {
        generations := generations[streamId := 0];
      }
      generations := generations[streamId := generations[streamId] + 1];
      token := Token(streamId, generations[streamId]);
    }

    method CountQueued()
      modifies this
      ensures State() == old(State()).(stats := old(stats).(queued := old(stats).queued + 1))
    {
      stats := stats.(queued := stats.queued + 1);
    }

    method MarkJobStarted()
      modifies this
      ensures State() == old(State()).(stats := Started(old(stats)))
    {
      if stats.queued > 0 {
        stats := stats.(queued := stats.queued - 1);
      }
      stats := stats.(running := true);
    }

    method RecordJobFinished(job: Job, response: Result<Response, string>, queryMs: nat)
      modifies this
      ensures State() == Recorded(old(State()), job, OutcomeOf(response), queryMs)
      ensures !stats.running && stats.lastQueryMs == queryMs && stats.queued == old(stats.queued)
      ensures stats.completedQueries
           == old(stats.completedQueries) + (if response.Ok? && !response.value.stopReason.Cancelled? then 1 else 0)
      ensures stats.cancelledQueries
           == old(stats.cancelledQueries) + (if response.Ok? && response.value.stopReason.Cancelled? then 1 else 0)
      ensures stats.failedQueries == old(stats.failedQueries) + (if response.Err? then 1 else 0)
      ensures stats.lastError == if response.Err? then Some(response.error) else None
    {
      var outcome := OutcomeOf(response);
      stats := stats.(running := false, lastQueryMs := queryMs);
      match response {
        case Ok(answer) =>
          if answer.stopReason.Cancelled? {
            stats := stats.(cancelledQueries := stats.cancelledQueries + 1, lastError := None);
          } else {
            stats := stats.(completedQueries := stats.completedQueries + 1, lastError := None);
          }
        case Err(error) =>
          stats := stats.(failedQueries := stats.failedQueries + 1, lastError := Some(error));
      }
      var sequence := nextEventSequence;
      nextEventSequence := nextEventSequence + 1;
      events := events + [Event(sequence, job.token.streamId, job.query, outcome, queryMs)];
      ghost var pushed := events;
      while |events| > QUERY_WORKER_EVENT_LIMIT
        invariant |events| <= |pushed| && events == pushed[|pushed| - |events|..]
        invariant |pushed| >= QUERY_WORKER_EVENT_LIMIT ==> |events| >= QUERY_WORKER_EVENT_LIMIT
        invariant |pushed| < QUERY_WORKER_EVENT_LIMIT ==> events == pushed
        invariant generations == old(generations) && stats == FinishedStats(old(stats), outcome, queryMs)
        invariant nextEventSequence == old(nextEventSequence) + 1
      {
        events := events[1..];
      }
    }
  }

  function InitialShared(): Shared {
    Shared(map[], WorkerStats(0, false, 0, 0, 0, 0, None), [], 1)
  }

  function Recorded(shared: Shared, job: Job, outcome: Outcome, queryMs: nat): Shared {
    var event := Event(shared.nextEventSequence, job.token.streamId, job.query, outcome, queryMs);
    shared.(stats := FinishedStats(shared.stats, outcome, queryMs),
            events := Newest(shared.events + [event], QUERY_WORKER_EVENT_LIMIT),
            nextEventSequence := shared.nextEventSequence + 1)
  }

  // ----- Submitters and the worker, interleaved -----

  /** A running query has polled its token, with these answers. A dead worker may have been running one. */
  datatype WorkerPhase =
    | Waiting
    | Received(job: Job)
    | Running(job: Job, supersededAtStart: bool, polls: seq<bool>)
    | Dead(wasRunning: bool)

  /** A query that ran: whether it was superseded when the worker started it, and what it came to. */
  datatype Finished = Finished(job: Job, supersededAtStart: bool, outcome: Outcome)

  /**
    `begun` submitters hold a token, `counted` ones are also counted; neither has sent yet. `stranded`
    jobs were counted and cannot run any more: their submitter gets an error.
    */
  datatype World = World(
    shared: Shared, issued: seq<Token>, begun: seq<Job>, counted: seq<Job>, queue: seq<Job>,
    worker: WorkerPhase, submitted: nat, history: seq<Event>, finished: seq<Finished>, stranded: seq<Job>,
    sent: seq<Job>)

  datatype Action =
    | Begin(streamId: string, query: string)
    | Count(index: nat)
    | Send(index: nat)
    | Receive
    | Start
    | Poll
    | Finish(outcome: Outcome, queryMs: nat)
    | StopWorker

  function Without<T>(s: seq<T>, i: nat): (rest: seq<T>)
    requires i < |s|
    ensures |rest| == |s| - 1
  {
    s[..i] + s[i + 1..]
  }

  function InitialWorld(): World {
    World(InitialShared(), [], [], [], [], Waiting, 0, [], [], [], [])
  }

  /** A query is cancelled by the first poll that says so, completes over polls that do not, and may fail at any time. */
  predicate Agrees(polls: seq<bool>, outcome: Outcome) {
    !outcome.FailedQuery? ==>
      polls != [] && forall p | 0 <= p < |polls| :: polls[p] <==> outcome.CancelledQuery? && p == |polls| - 1
  }

  /** Every query is such a run: the polls it made agree with what it came to. */
  lemma {:induction false} QueryAgrees(
      files: Files, batches: seq<MetadataRow>, request: Request, nowMs: nat, engine: RegexEngine,
      expired: nat -> bool, answers: nat -> bool, response: Result<Response, string>,
      scanned: seq<QueryRow>, stale: set<string>, polls: nat)
    requires QueryOutcome(
      files, batches, request, nowMs, engine, expired, Some(answers), response, scanned, stale, polls)
    ensures Agrees(seq(polls, p requires 0 <= p < polls => answers(p)), OutcomeOf(response))
  {
    hide Answers, Collected, AllStale, BuildMatcher, BatchLines, QueriedBatches;
    if response.Ok? {
      assert Polled(Some(answers), 0, polls, response.value.stopReason.Cancelled?);
      forall p | 0 <= p < polls
        ensures answers(p) <==> response.value.stopReason.Cancelled? && p == polls - 1
      {
        assert PollsCancelled(Some(answers), p) == answers(p);
      }
    }
  }

  function Next(w: World, action: Action): World {
    var shared := w.shared;
    match action
    case Begin(streamId, query) =>
      var generations := Begun(shared.generations, streamId);
      var token := Token(streamId, Generation(generations, streamId));
      w.(shared := shared.(generations := generations), issued := w.issued + [token],
         begun := w.begun + [Job(token, query)])
    case Count(i) =>
      if i >= |w.begun| then w
      else
        w.(shared := shared.(stats := shared.stats.(queued := shared.stats.queued + 1)), submitted := w.submitted + 1,
           begun := Without(w.begun, i), counted := w.counted + [w.begun[i]])
    case Send(i) =>
      if i >= |w.counted| then w
      else if w.worker.Dead? then
        w.(counted := Without(w.counted, i), stranded := w.stranded + [w.counted[i]])
      else
        w.(counted := Without(w.counted, i), queue := w.queue + [w.counted[i]], sent := w.sent + [w.counted[i]])
    case Receive =>
      if !w.worker.Waiting? || w.queue == [] then w
      else w.(worker := Received(w.queue[0]), queue := w.queue[1..])
    case Start =>
      if !w.worker.Received? then w
      else
        w.(worker := Running(w.worker.job, Superseded(shared.generations, w.worker.job.token), []),
           shared := shared.(stats := Started(shared.stats)))
    case Poll =>
      if !w.worker.Running? then w
      else
        var answer := Superseded(shared.generations, w.worker.job.token);
        w.(worker := w.worker.(polls := w.worker.polls + [answer]))
    case Finish(outcome, queryMs) =>
      if !w.worker.Running? || !Agrees(w.worker.polls, outcome) then w
      else
        var job := w.worker.job;
        w.(worker := Waiting, shared := Recorded(shared, job, outcome, queryMs),
           history := w.history
             + [Event(shared.nextEventSequence, job.token.streamId, job.query, outcome, queryMs)],
           finished := w.finished + [Finished(job, w.worker.supersededAtStart, outcome)])
    case StopWorker =>
      if w.worker.Dead? then w
      else
        w.(worker := Dead(w.worker.Running?), queue := [],
           stranded := w.stranded + (if w.worker.Received? then [w.worker.job] else []) + w.queue)
  }

  function Run(w: World, actions: seq<Action>): World
    decreases |actions|
  {
    if actions == [] then w else Run(Next(w, actions[0]), actions[1..])
  }

  // ----- What every run keeps -----

  /** Tokens of a stream carry strictly growing generations, none above the current one. */
  ghost predicate TokensGrow(w: World) {
    && (forall i | 0 <= i < |w.issued| ::
          1 <= w.issued[i].value <= Generation(w.shared.generations, w.issued[i].streamId))
    && forall i, j | 0 <= i < j < |w.issued| && w.issued[i].streamId == w.issued[j].streamId ::
         w.issued[i].value < w.issued[j].value
  }

  function InWorker(worker: WorkerPhase): nat {
    if worker.Received? then 1 else 0
  }

  ghost predicate JobsConserved(w: World) {
    var stats := w.shared.stats;
    && stats.queued == |w.counted| + |w.queue| + InWorker(w.worker) + |w.stranded|
    && (stats.running <==> w.worker.Running? || (w.worker.Dead? && w.worker.wasRunning))
    && (w.worker.Dead? ==> w.queue == [])
    && w.submitted == stats.queued + (if stats.running then 1 else 0)
         + stats.completedQueries + stats.cancelledQueries + stats.failedQueries
    && |w.history| == stats.completedQueries + stats.cancelledQueries + stats.failedQueries
  }

  /** The log is the newest 64 of all finishes, numbered consecutively from one. */
  ghost predicate LogIsRecent(w: World) {
    && w.shared.events == Newest(w.history, QUERY_WORKER_EVENT_LIMIT)
    && w.shared.nextEventSequence == |w.history| + 1
    && forall i | 0 <= i < |w.history| :: w.history[i].sequence == i + 1
  }

  function EndedAs(completed: bool, cancelled: bool): Event -> bool {
    (event: Event) => event.outcome.CompletedQuery? == completed && event.outcome.CancelledQuery? == cancelled
  }

  /** Each counter counts the finishes of its kind, the last figures are of the last one, and each names its job. */
  ghost predicate CountsByOutcome(w: World) {
    var stats := w.shared.stats;
    && stats.completedQueries == |Filter(w.history, EndedAs(true, false))|
    && stats.cancelledQueries == |Filter(w.history, EndedAs(false, true))|
    && stats.failedQueries == |Filter(w.history, EndedAs(false, false))|
    && (if w.history == [] then stats.lastQueryMs == 0 && stats.lastError == None
        else
          var last := w.history[|w.history| - 1];
          && stats.lastQueryMs == last.durationMs
          && stats.lastError == (if last.outcome.FailedQuery? then Some(last.outcome.error) else None))
    && |w.finished| == |w.history|
    && forall i | 0 <= i < |w.history| ::
         && w.history[i].streamId == w.finished[i].job.token.streamId && w.history[i].query == w.finished[i].job.query
         && w.history[i].outcome == w.finished[i].outcome
  }

  lemma {:induction false} CountsStep(w: World, action: Action)
    requires CountsByOutcome(w)
    ensures CountsByOutcome(Next(w, action))
  {
    hide Newest, Begun, Superseded, Agrees, Filter;
    if action.Finish? && Next(w, action).history != w.history {
      var event := Next(w, action).history[|w.history|];
      CountOneMore(w.history, event, true, false);
      CountOneMore(w.history, event, false, true);
      CountOneMore(w.history, event, false, false);
      assert Next(w, action).history == w.history + [event];
    }
  }

  lemma {:induction false} CountOneMore(history: seq<Event>, event: Event, completed: bool, cancelled: bool)
    ensures |Filter(history + [event], EndedAs(completed, cancelled))|
         == |Filter(history, EndedAs(completed, cancelled))| + (if EndedAs(completed, cancelled)(event) then 1 else 0)
  {
    FilterConcat(history, [event], EndedAs(completed, cancelled));
  }

  function JobsOf(finished: seq<Finished>): seq<Job> {
    if finished == [] then [] else JobsOf(finished[..|finished| - 1]) + [finished[|finished| - 1].job]
  }

  function InHand(worker: WorkerPhase): seq<Job> {
    if worker.Received? || worker.Running? then [worker.job] else []
  }

  /** Queries run in the order they were sent; a worker that stopped ran the first of them. */
  ghost predicate RunInOrder(w: World) {
    if w.worker.Dead? then JobsOf(w.finished) <= w.sent
    else w.sent == JobsOf(w.finished) + InHand(w.worker) + w.queue
  }

  lemma {:induction false} OrderStep(w: World, action: Action)
    requires RunInOrder(w) && JobsConserved(w)
    ensures RunInOrder(Next(w, action))
  {
    hide Recorded, Started, Begun, Superseded, Agrees, JobsOf;
    var next := Next(w, action);
    if |next.finished| > |w.finished| {
      FinishedOneMore(w.finished, next.finished[|w.finished|]);
      assert next.finished == w.finished + [next.finished[|w.finished|]];
    }
    if action.Receive? && w.worker.Waiting? && w.queue != [] {
      HandedOn(JobsOf(w.finished), w.queue);
    }
  }

  lemma {:induction false} HandedOn(before: seq<Job>, queue: seq<Job>)
    requires queue != []
    ensures before + [] + queue == before + [queue[0]] + queue[1..]
  {
  }

  lemma {:induction false} FinishedOneMore(finished: seq<Finished>, last: Finished)
    ensures JobsOf(finished + [last]) == JobsOf(finished) + [last.job]
  {
    assert (finished + [last])[..|finished|] == finished;
  }

  lemma {:induction false} TokensStep(w: World, action: Action)
    requires TokensGrow(w)
    ensures TokensGrow(Next(w, action))
  {
  }

  lemma {:induction false} JobsStep(w: World, action: Action)
    requires JobsConserved(w)
    ensures JobsConserved(Next(w, action))
    ensures action.Start? && w.worker.Received? ==> w.shared.stats.queued > 0
  {
  }

  lemma {:induction false} LogStep(w: World, action: Action)
    requires LogIsRecent(w)
    ensures LogIsRecent(Next(w, action))
  {
    if action.Finish? && w.worker.Running? && Agrees(w.worker.polls, action.outcome) {
      var event := Event(
        w.shared.nextEventSequence, w.worker.job.token.streamId, w.worker.job.query, action.outcome, action.queryMs);
      NewestOfNewest(w.history, event, QUERY_WORKER_EVENT_LIMIT);
    }
  }

  lemma {:induction false} NewestOfNewest<T>(history: seq<T>, last: T, limit: nat)
    requires limit > 0
    ensures Newest(Newest(history, limit) + [last], limit) == Newest(history + [last], limit)
  {
  }

  /** Every job holds an issued token, so once superseded it stays so. */
  ghost predicate JobsHoldTokens(w: World) {
    && (forall job <- w.begun + w.counted + w.queue + w.stranded :: job.token in w.issued)
    && (w.worker.Received? || w.worker.Running? ==> w.worker.job.token in w.issued)
    && forall done <- w.finished :: done.job.token in w.issued
  }

  /** What a superseded query comes to: superseded before it starts it never completes, and only superseded ones are cancelled. */
  ghost predicate SupersededNeverComplete(w: World) {
    && (w.worker.Running? ==>
          && (w.worker.supersededAtStart ==> forall answer <- w.worker.polls :: answer)
          && (w.worker.supersededAtStart || true in w.worker.polls ==>
                Superseded(w.shared.generations, w.worker.job.token)))
    && forall done <- w.finished ::
         && (done.supersededAtStart ==> !done.outcome.CompletedQuery?)
         && (done.supersededAtStart || done.outcome.CancelledQuery? ==>
               Superseded(w.shared.generations, done.job.token))
  }

  lemma {:induction false} TokensHeldStep(w: World, action: Action)
    requires JobsHoldTokens(w)
    ensures JobsHoldTokens(Next(w, action))
  {
  }

  lemma {:induction false} StaysCancelled(w: World, action: Action, token: Token)
    requires TokensGrow(w) && token in w.issued && Superseded(w.shared.generations, token)
    ensures Superseded(Next(w, action).shared.generations, token)
  {
  }

  lemma {:induction false} SupersededStep(w: World, action: Action)
    requires TokensGrow(w) && JobsHoldTokens(w) && SupersededNeverComplete(w)
    ensures SupersededNeverComplete(Next(w, action))
  {
    forall token <- w.issued | Superseded(w.shared.generations, token)
      ensures Superseded(Next(w, action).shared.generations, token)
    {
      StaysCancelled(w, action, token);
    }
    hide TokensGrow, Recorded, Superseded;
    var next := Next(w, action);
    if action.Finish? && w.worker.Running? && Agrees(w.worker.polls, action.outcome) {
      var polls := w.worker.polls;
      if polls != [] {
        assert polls[|polls| - 1] in polls;
      }
    }
  }

  ghost predicate Invariant(w: World) {
    TokensGrow(w) && JobsConserved(w) && LogIsRecent(w) && JobsHoldTokens(w) && SupersededNeverComplete(w)
    && CountsByOutcome(w) && RunInOrder(w)
  }

  lemma {:induction false} InitialInvariant()
    ensures Invariant(InitialWorld())
  {
  }

  lemma {:induction false} RunKeepsInvariant(w: World, actions: seq<Action>)
    requires Invariant(w)
    ensures Invariant(Run(w, actions))
    decreases |actions|
  {
    hide TokensGrow, JobsConserved, LogIsRecent, JobsHoldTokens, SupersededNeverComplete, CountsByOutcome, RunInOrder, RunInOrder, Next;
    if actions != [] {
      TokensStep(w, actions[0]);
      JobsStep(w, actions[0]);
      LogStep(w, actions[0]);
      TokensHeldStep(w, actions[0]);
      SupersededStep(w, actions[0]);
      CountsStep(w, actions[0]);
      OrderStep(w, actions[0]);
      RunKeepsInvariant(Next(w, actions[0]), actions[1..]);
    }
  }

  lemma {:induction false} ReachedInvariant(actions: seq<Action>)
    ensures Invariant(Run(InitialWorld(), actions))
  {
    hide Invariant, Run;
    InitialInvariant();
    RunKeepsInvariant(InitialWorld(), actions);
  }

  /**
    After any interleaving: every counted query is queued, running, completed, cancelled or failed,
    they run in the order sent, each counter counts the finishes of its kind, and the event log is the newest 64 finishes with
    consecutive numbers.
    */
  lemma {:induction false} EveryRunAccountsForItsQueries(actions: seq<Action>)
    ensures var w := Run(InitialWorld(), actions);
      var stats, events := w.shared.stats, w.shared.events;
      && w.submitted == stats.queued + (if stats.running then 1 else 0)
           + stats.completedQueries + stats.cancelledQueries + stats.failedQueries
      && CountsByOutcome(w) && RunInOrder(w)
      && |events| == (if |w.history| < QUERY_WORKER_EVENT_LIMIT then |w.history| else QUERY_WORKER_EVENT_LIMIT)
      && forall i | 0 <= i < |events| :: events[i].sequence == |w.history| - |events| + i + 1
  {
    hide TokensGrow, JobsHoldTokens, SupersededNeverComplete, CountsByOutcome, RunInOrder, Run;
    ReachedInvariant(actions);
  }

  /**
    Over every interleaving: a query superseded before the worker starts it is never reported
    completed, and a query still the latest of its stream is never reported cancelled.
    */
  lemma {:induction false} SupersededQueriesNeverComplete(actions: seq<Action>, i: nat)
    requires i < |Run(InitialWorld(), actions).finished|
    ensures var w := Run(InitialWorld(), actions);
      var done := w.finished[i];
      && (done.supersededAtStart ==> !done.outcome.CompletedQuery?)
      && (!Superseded(w.shared.generations, done.job.token) ==> !done.outcome.CancelledQuery?)
  {
    hide TokensGrow, JobsConserved, LogIsRecent, JobsHoldTokens, CountsByOutcome, RunInOrder, Run;
    ReachedInvariant(actions);
    assert Run(InitialWorld(), actions).finished[i] in Run(InitialWorld(), actions).finished;
  }

  /** At most one token of a stream is not cancelled, and it is the last one issued. */
  lemma {:induction false} OnlyTheLatestIsLive(actions: seq<Action>, i: nat, j: nat)
    requires var issued := Run(InitialWorld(), actions).issued;
      i < j < |issued| && issued[i].streamId == issued[j].streamId
    ensures var w := Run(InitialWorld(), actions); Superseded(w.shared.generations, w.issued[i])
  {
    hide JobsConserved, LogIsRecent, JobsHoldTokens, SupersededNeverComplete, CountsByOutcome, RunInOrder, Run;
    ReachedInvariant(actions);
  }

  lemma {:induction false} GenerationsOnlyGrow(w: World, actions: seq<Action>, streamId: string)
    ensures Generation(w.shared.generations, streamId) <= Generation(Run(w, actions).shared.generations, streamId)
    decreases |actions|
  {
    if actions != [] {
      GenerationsOnlyGrow(Next(w, actions[0]), actions[1..], streamId);
    }
  }

  /** Cancellation is permanent: whatever happens next, a superseded query stays superseded. */
  lemma {:induction false} CancellationIsPermanent(before: seq<Action>, after: seq<Action>, token: Token)
    requires token in Run(InitialWorld(), before).issued
    requires Superseded(Run(InitialWorld(), before).shared.generations, token)
    ensures Superseded(Run(Run(InitialWorld(), before), after).shared.generations, token)
  {
    hide JobsConserved, LogIsRecent, JobsHoldTokens, SupersededNeverComplete, CountsByOutcome, RunInOrder, Run;
    ReachedInvariant(before);
    GenerationsOnlyGrow(Run(InitialWorld(), before), after, token.streamId);
  }

  /** A token dies exactly when its own stream begins another query; other streams leave it alone. */
  lemma {:induction false} OnlyTheSameStreamCancels(w: World, action: Action, token: Token)
    requires TokensGrow(w) && token in w.issued && !Superseded(w.shared.generations, token)
    ensures Superseded(Next(w, action).shared.generations, token)
       <==> action.Begin? && action.streamId == token.streamId
  {
  }

  // ----- What a worker that stops leaves behind -----

  /** A job can no longer run, or the one that ran when the worker stopped will not finish. */
  predicate LeftBehind(w: World) {
    w.stranded != [] || (w.worker.Dead? && w.worker.wasRunning)
  }

  /** Somewhere the worker stops over work, or a query is sent to a worker that stopped. */
  predicate Strands(w: World, actions: seq<Action>)
    decreases |actions|
  {
    && actions != []
    && (|| (actions[0].StopWorker? && !w.worker.Dead? && (w.queue != [] || !w.worker.Waiting?))
        || (actions[0].Send? && actions[0].index < |w.counted| && w.worker.Dead?)
        || Strands(Next(w, actions[0]), actions[1..]))
  }

  lemma {:induction false} StrandsStep(w: World, action: Action)
    ensures LeftBehind(Next(w, action))
       <==> || LeftBehind(w)
            || (action.StopWorker? && !w.worker.Dead? && (w.queue != [] || !w.worker.Waiting?))
            || (action.Send? && action.index < |w.counted| && w.worker.Dead?)
  {
    hide Recorded, Started, Begun, Agrees;
  }

  lemma {:induction false} StrandedExactly(w: World, actions: seq<Action>)
    ensures LeftBehind(Run(w, actions)) <==> LeftBehind(w) || Strands(w, actions)
    decreases |actions|
  {
    hide LeftBehind, Next;
    if actions != [] {
      StrandsStep(w, actions[0]);
      StrandedExactly(Next(w, actions[0]), actions[1..]);
    }
  }

  /** Nobody is about to send, nothing is queued, and the worker works on nothing. */
  predicate Quiet(w: World) {
    w.begun == [] && w.counted == [] && w.queue == [] && (w.worker.Waiting? || w.worker.Dead?)
  }

  /** Once all is quiet the statistics show nothing queued and nothing running exactly if no query was stranded. */
  lemma {:induction false} IdleStatsExactly(actions: seq<Action>)
    requires Quiet(Run(InitialWorld(), actions))
    ensures var stats := Run(InitialWorld(), actions).shared.stats;
      stats.queued == 0 && !stats.running <==> !Strands(InitialWorld(), actions)
  {
    hide TokensGrow, LogIsRecent, JobsHoldTokens, SupersededNeverComplete, CountsByOutcome, RunInOrder, Run, Strands;
    ReachedInvariant(actions);
    StrandedExactly(InitialWorld(), actions);
  }

  /** A query counted before its submitter finds the worker gone stays counted as queued. */
  lemma {:induction false} RefusedQueryStaysQueued(streamId: string, query: string)
    ensures var actions := [Begin(streamId, query), Count(0), StopWorker, Send(0)];
      && Quiet(Run(InitialWorld(), actions)) && Strands(InitialWorld(), actions)
      && Run(InitialWorld(), actions).shared.stats.queued == 1
  {
    var actions := [Begin(streamId, query), Count(0), StopWorker, Send(0)];
    var begun := Next(InitialWorld(), actions[0]);
    var counted := Next(begun, actions[1]);
    var stopped := Next(counted, actions[2]);
    var sent := Next(stopped, actions[3]);
    assert Quiet(sent) && sent.stranded != [] && sent.shared.stats.queued == 1;
    hide Next, Quiet;
    assert actions[1..] == [Count(0), StopWorker, Send(0)] && actions[1..][1..] == [StopWorker, Send(0)];
    assert actions[1..][1..][1..] == [Send(0)] && [Send(0)][1..] == [];
    assert Run(stopped, [Send(0)]) == sent;
    assert Run(counted, [StopWorker, Send(0)]) == sent && Run(begun, actions[1..]) == sent;
    StrandedExactly(InitialWorld(), actions);
  }
}
