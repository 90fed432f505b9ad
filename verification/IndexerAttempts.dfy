/** The attempts of the three lanes: every way out gives the lane back once. */
module IndexerAttempts {
  import opened Sequences
  import opened IndexerHost
  import opened IndexerRuns
  import opened Utf8

  datatype Attempt = Applied | Unavailable | Cancelled

  /** Errors by how the attempts tell them apart. */
  datatype RequestError = RequestCancelled | StaleGeneration(message: string) | OtherError(message: string) {
    function Message(): string {
      if RequestCancelled? then REQUEST_CANCELLED else message
    }
  }

  const REQUEST_CANCELLED: string := "Indexer request cancelled"

  datatype Publication = Published | PublicationCancelled | PublicationFailed(error: RequestError)

  datatype PublicationMode = CoreAndSubstring | CoreOnly | SubstringOnly

  const CONTENT_OMITTED: string := "Indexer content prepare omitted publication artifact"
  const STUB_OMITTED: string := "Indexer stub prepare omitted publication artifact"
  const DISCOVERY_OMITTED: string := "Indexer discovery prepare omitted publication artifact"

  /**
    What the world answers to an attempt: how a sidecar starts, whether the request succeeds and then
    brings a publication artifact, and how publishing it goes.
    */
  datatype Answers = Answers(
    launch: IndexerHost.Launch,
    request: Result<bool, RequestError>,
    publication: Publication,
    detachedError: Option<string>,
    artifactUpdateError: Option<string>)

  // ----- What an attempt is to do -----

  function PublicationEnds(publication: Publication, session: Session): (Attempt, Finish) {
    match publication
    case Published => (Applied, Success(session))
    case PublicationCancelled => (Attempt.Cancelled, Finish.Cancelled)
    case PublicationFailed(error) =>
      if error.StaleGeneration? then (Attempt.Cancelled, Superseded(session))
      else (Unavailable, Failure(error.Message()))
  }

  function RefreshEnds(answers: Answers, omitted: string, session: Session): (Attempt, Finish) {
    match answers.request
    case Ok(artifact) =>
      if artifact then PublicationEnds(answers.publication, session)
      else if session.writerPublication then (Unavailable, Failure(omitted))
      else (Applied, Success(session))
    case Err(error) =>
      match error
      case RequestCancelled => (Attempt.Cancelled, Finish.Cancelled)
      case StaleGeneration(_) => (Attempt.Cancelled, Superseded(session))
      case OtherError(message) => (Unavailable, Failure(message))
  }

  function StubEnds(answers: Answers): Session -> (Attempt, Finish) {
    (session: Session) => RefreshEnds(answers, STUB_OMITTED, session)
  }

  /** Content that was applied is reported so even if its substring index could not be queued. */
  function ContentEnds(answers: Answers, mode: PublicationMode): Session -> (Attempt, Finish) {
    (session: Session) =>
      if answers.request == Ok(true) && answers.publication.Published? && mode.CoreAndSubstring?
         && answers.detachedError.Some?
      then (Applied, Failure(answers.detachedError.value))
      else RefreshEnds(answers, CONTENT_OMITTED, session)
  }

  /** Discovery is never cancelled by its request. */
  function DiscoveryEnds(answers: Answers, cursorChanged: bool): Session -> (Attempt, Finish) {
    (session: Session) =>
      match answers.request
      case Ok(artifact) =>
        if !Publishes(session) then (Applied, Success(session))
        else if !artifact then (Unavailable, Failure(DISCOVERY_OMITTED))
        else if cursorChanged && answers.artifactUpdateError.Some? then
          (Unavailable, Failure(answers.artifactUpdateError.value))
        else PublicationEnds(answers.publication, session)
      case Err(error) =>
        if error.StaleGeneration? then (Attempt.Cancelled, Superseded(session))
        else (Unavailable, Failure(error.Message()))
  }

  function Attempted(
      host: Host, kind: Kind, executable: bool, now: nat, later: nat, answers: Answers,
      ends: Session -> (Attempt, Finish))
    : (Host, Attempt)
  {
    var (checkedOut, r) := CheckedOut(host, kind, executable, now, answers.launch);
    match r
    case Err(error) => (checkedOut.Finished(kind, Failure(error), later), Unavailable)
    case Ok(None) => (checkedOut, Unavailable)
    case Ok(Some(session)) =>
      var (attempt, finish) := ends(session);
      (checkedOut.Finished(kind, finish, later), attempt)
  }

  // ----- How a lane and the host are left -----

  /** The session a lane lends: its own, or one just started; none while it is busy or backs off. */
  function Lent(lane: Lane, executable: bool, now: nat, launch: IndexerHost.Launch): Option<Session> {
    if lane.inFlight || (lane.retryNotBefore.Some? && now < lane.retryNotBefore.value) then None
    else if lane.session.Some? then lane.session
    else if executable && launch.Healthy? then Some(launch.session)
    else None
  }

  function CompletedChunks(counters: Counters, kind: Kind): nat {
    match kind
    case Discovery => counters.completedDiscovery
    case ContentRefresh => counters.completedContent
    case StubRefresh => counters.completedStub
  }

  /** The lane is free and ready to grant at once. */
  ghost predicate LaneReady(lane: Lane) {
    !lane.inFlight && lane.consecutiveFailures == 0 && lane.retryNotBefore == None && lane.activeProcessId == None
  }

  ghost predicate OtherLanesSame(before: Host, after: Host, kind: Kind) {
    forall other | other != kind :: after.LaneOf(other) == before.LaneOf(other)
  }

  /** The session is back in its lane, and one more chunk of the kind is completed. */
  ghost predicate EndsCompleted(before: Host, after: Host, kind: Kind, session: Session) {
    && LaneReady(after.LaneOf(kind)) && after.LaneOf(kind).session == Some(session)
    && CompletedChunks(after.counters, kind) == Saturated(CompletedChunks(before.counters, kind) + 1, MAX_U64)
    && (forall other | other != kind :: CompletedChunks(after.counters, other) == CompletedChunks(before.counters, other))
    && after.counters.cancelledContent == before.counters.cancelledContent
    && after.counters.cancelledStub == before.counters.cancelledStub
    && after.counters.degraded == before.counters.degraded && after.lastError == before.lastError
    && after.status != Degraded && OtherLanesSame(before, after, kind)
  }

  /** A cancelled chunk is counted, except of discovery; the session is kept or not. */
  ghost predicate EndsCancelled(before: Host, after: Host, kind: Kind, session: Option<Session>) {
    && LaneReady(after.LaneOf(kind)) && after.LaneOf(kind).session == session
    && (forall any: Kind :: CompletedChunks(after.counters, any) == CompletedChunks(before.counters, any))
    && after.counters.cancelledContent
       == (if kind.ContentRefresh? then Saturated(before.counters.cancelledContent + 1, MAX_U64)
           else before.counters.cancelledContent)
    && after.counters.cancelledStub
       == (if kind.StubRefresh? then Saturated(before.counters.cancelledStub + 1, MAX_U64)
           else before.counters.cancelledStub)
    && after.counters.degraded == before.counters.degraded && after.lastError == before.lastError
    && after.status != Degraded && OtherLanesSame(before, after, kind)
  }

  /** The session is gone, the streak of failures longer, and the next start put off. */
  ghost predicate EndsFailed(before: Host, after: Host, kind: Kind, error: string, later: nat) {
    && (var lane := after.LaneOf(kind);
        && !lane.inFlight && lane.session == None && lane.activeProcessId == None
        && lane.consecutiveFailures == Saturated(before.LaneOf(kind).consecutiveFailures + 1, MAX_U32)
        && lane.retryNotBefore == Some(later + RestartBackoff(lane.consecutiveFailures)))
    && (forall any: Kind :: CompletedChunks(after.counters, any) == CompletedChunks(before.counters, any))
    && after.counters.cancelledContent == before.counters.cancelledContent
    && after.counters.cancelledStub == before.counters.cancelledStub
    && after.counters.degraded == Saturated(before.counters.degraded + 1, MAX_U64) && after.lastError == Some(error)
    && after.status != Idle && OtherLanesSame(before, after, kind)
  }

  /** How publishing a prepared chunk, or not, ends a granted attempt. */
  ghost predicate EndsPublished(
      before: Host, after: Host, attempt: Attempt, kind: Kind, session: Session, publication: Publication, later: nat)
  {
    match publication
    case Published => attempt == Applied && EndsCompleted(before, after, kind, session)
    case PublicationCancelled => attempt == Attempt.Cancelled && EndsCancelled(before, after, kind, None)
    case PublicationFailed(StaleGeneration(_)) =>
      attempt == Attempt.Cancelled && EndsCancelled(before, after, kind, Some(session))
    case PublicationFailed(OtherError(message)) =>
      attempt == Unavailable && EndsFailed(before, after, kind, message, later)
    case PublicationFailed(RequestCancelled) =>
      attempt == Unavailable && EndsFailed(before, after, kind, REQUEST_CANCELLED, later)
  }

  /** How a granted stub or content attempt ends; `detachedError` is of queueing the substring index, if asked for. */
  ghost predicate EndsRefreshed(
      before: Host, after: Host, attempt: Attempt, kind: Kind, session: Session, answers: Answers,
      omitted: string, detachedError: Option<string>, later: nat)
  {
    match answers.request
    case Ok(true) =>
      if answers.publication.Published? && detachedError.Some? then
        attempt == Applied && EndsFailed(before, after, kind, detachedError.value, later)
      else EndsPublished(before, after, attempt, kind, session, answers.publication, later)
    case Ok(false) =>
      if session.writerPublication then attempt == Unavailable && EndsFailed(before, after, kind, omitted, later)
      else attempt == Applied && EndsCompleted(before, after, kind, session)
    case Err(RequestCancelled) => attempt == Attempt.Cancelled && EndsCancelled(before, after, kind, None)
    case Err(StaleGeneration(_)) =>
      attempt == Attempt.Cancelled && EndsCancelled(before, after, kind, Some(session))
    case Err(OtherError(message)) => attempt == Unavailable && EndsFailed(before, after, kind, message, later)
  }

  /** How a granted discovery ends; `updateError` is of rewriting the artifact of a changed cursor. */
  ghost predicate EndsDiscovered(
      before: Host, after: Host, attempt: Attempt, session: Session, answers: Answers,
      updateError: Option<string>, later: nat)
  {
    match answers.request
    case Ok(artifact) =>
      if !session.writerPublication || !session.discoveryPublication then
        attempt == Applied && EndsCompleted(before, after, Discovery, session)
      else if !artifact then
        attempt == Unavailable && EndsFailed(before, after, Discovery, DISCOVERY_OMITTED, later)
      else if updateError.Some? then
        attempt == Unavailable && EndsFailed(before, after, Discovery, updateError.value, later)
      else EndsPublished(before, after, attempt, Discovery, session, answers.publication, later)
    case Err(StaleGeneration(_)) =>
      attempt == Attempt.Cancelled && EndsCancelled(before, after, Discovery, Some(session))
    case Err(OtherError(message)) => attempt == Unavailable && EndsFailed(before, after, Discovery, message, later)
    case Err(RequestCancelled) =>
      attempt == Unavailable && EndsFailed(before, after, Discovery, REQUEST_CANCELLED, later)
  }

  /** Where there is no session to lend, a busy lane or one backing off is left alone; else the start failed. */
  ghost predicate EndsWithoutSession(
      before: Host, after: Host, attempt: Attempt, kind: Kind, executable: bool, now: nat,
      launch: IndexerHost.Launch, later: nat)
  {
    && attempt == Unavailable
    && var lane := before.LaneOf(kind);
       if lane.inFlight || (lane.retryNotBefore.Some? && now < lane.retryNotBefore.value) then after == before
       else if !executable then EndsFailed(before, after, kind, NO_EXECUTABLE, later)
       else !launch.Healthy? && EndsFailed(before, after, kind, launch.error, later)
  }

  lemma {:induction false} FinishedEnds(host: Host, kind: Kind, finish: Finish, later: nat)
    ensures var after := host.Finished(kind, finish, later);
      match finish
      case Success(session) => EndsCompleted(host, after, kind, session)
      case Superseded(session) => EndsCancelled(host, after, kind, Some(session))
      case Cancelled => EndsCancelled(host, after, kind, None)
      case Failure(error) => EndsFailed(host, after, kind, error, later)
  {
    hide RestartBackoff, Saturated;
  }

  /** Only the lane itself changed since, and not its streak. */
  ghost predicate OnlyLent(before: Host, host: Host, kind: Kind) {
    && OtherLanesSame(before, host, kind) && host.counters == before.counters && host.lastError == before.lastError
    && host.LaneOf(kind).consecutiveFailures == before.LaneOf(kind).consecutiveFailures
  }

  lemma {:induction false} LentFinishEnds(before: Host, host: Host, kind: Kind, finish: Finish, later: nat)
    requires OnlyLent(before, host, kind)
    ensures var after := host.Finished(kind, finish, later);
      match finish
      case Success(session) => EndsCompleted(before, after, kind, session)
      case Superseded(session) => EndsCancelled(before, after, kind, Some(session))
      case Cancelled => EndsCancelled(before, after, kind, None)
      case Failure(error) => EndsFailed(before, after, kind, error, later)
  {
    FinishedEnds(host, kind, finish, later);
    hide Host.Finished, Saturated, RestartBackoff;
  }

  lemma {:induction false} LentOnly(host: Host, kind: Kind, executable: bool, now: nat, launch: IndexerHost.Launch)
    ensures var (checkedOut, r) := CheckedOut(host, kind, executable, now, launch);
      var lane := host.LaneOf(kind);
      match Lent(lane, executable, now, launch)
      case Some(session) => r == Ok(Some(session)) && OnlyLent(host, checkedOut, kind)
      case None =>
        if lane.inFlight || (lane.retryNotBefore.Some? && now < lane.retryNotBefore.value)
        then r == Ok(None) && checkedOut == host
        else
          && OnlyLent(host, checkedOut, kind)
          && (if !executable then r == Err(NO_EXECUTABLE) else !launch.Healthy? && r == Err(launch.error))
  {
  }

  /** What every granted attempt leaves behind, in terms of how it ends. */
  lemma {:induction false} AttemptedLeaves(
      host: Host, kind: Kind, executable: bool, now: nat, later: nat, answers: Answers,
      ends: Session -> (Attempt, Finish))
    ensures var (after, attempt) := Attempted(host, kind, executable, now, later, answers, ends);
      match Lent(host.LaneOf(kind), executable, now, answers.launch)
      case None => EndsWithoutSession(host, after, attempt, kind, executable, now, answers.launch, later)
      case Some(session) =>
        && attempt == ends(session).0
        && match ends(session).1
           case Success(s) => EndsCompleted(host, after, kind, s)
           case Superseded(s) => EndsCancelled(host, after, kind, Some(s))
           case Cancelled => EndsCancelled(host, after, kind, None)
           case Failure(error) => EndsFailed(host, after, kind, error, later)
  {
    LentOnly(host, kind, executable, now, answers.launch);
    hide CheckedOut, Host.Finished, EndsCompleted, EndsCancelled, EndsFailed, OnlyLent;
    var (checkedOut, r) := CheckedOut(host, kind, executable, now, answers.launch);
    match r
    case Err(error) => LentFinishEnds(host, checkedOut, kind, Failure(error), later);
    case Ok(None) =>
    case Ok(Some(session)) => LentFinishEnds(host, checkedOut, kind, ends(session).1, later);
  }

  /** What a stub attempt leaves behind, whatever is answered. */
  ghost predicate StubLeaves(
      before: Host, after: Host, attempt: Attempt, executable: bool, now: nat, later: nat, answers: Answers)
  {
    match Lent(before.stub, executable, now, answers.launch)
    case None => EndsWithoutSession(before, after, attempt, StubRefresh, executable, now, answers.launch, later)
    case Some(session) =>
      EndsRefreshed(before, after, attempt, StubRefresh, session, answers, STUB_OMITTED, None, later)
  }

  /** The same of a content attempt, which queues its substring index only when it publishes both. */
  ghost predicate ContentLeaves(
      before: Host, after: Host, attempt: Attempt, executable: bool, now: nat, later: nat, answers: Answers,
      mode: PublicationMode)
  {
    match Lent(before.content, executable, now, answers.launch)
    case None => EndsWithoutSession(before, after, attempt, ContentRefresh, executable, now, answers.launch, later)
    case Some(session) =>
      EndsRefreshed(
        before, after, attempt, ContentRefresh, session, answers, CONTENT_OMITTED,
        if mode == CoreAndSubstring then answers.detachedError else None, later)
  }

  /** The same of a discovery, which rewrites the artifact only of a cursor that is not sent whole. */
  ghost predicate DiscoveryLeaves(
      before: Host, after: Host, attempt: Attempt, executable: bool, now: nat, later: nat, answers: Answers,
      cursorChanged: bool)
  {
    match Lent(before.discovery, executable, now, answers.launch)
    case None => EndsWithoutSession(before, after, attempt, Discovery, executable, now, answers.launch, later)
    case Some(session) =>
      EndsDiscovered(
        before, after, attempt, session, answers, if cursorChanged then answers.artifactUpdateError else None, later)
  }

  lemma {:induction false} StubAttemptLeaves(host: Host, executable: bool, now: nat, later: nat, answers: Answers)
    ensures var (after, attempt) :=
        Attempted(host, StubRefresh, executable, now, later, answers, StubEnds(answers));
      StubLeaves(host, after, attempt, executable, now, later, answers)
  {
    AttemptedLeaves(host, StubRefresh, executable, now, later, answers, StubEnds(answers));
    hide Attempted, EndsCompleted, EndsCancelled, EndsFailed, Lent;
  }

  lemma {:induction false} ContentAttemptLeaves(
      host: Host, executable: bool, now: nat, later: nat, answers: Answers, mode: PublicationMode)
    ensures var (after, attempt) :=
        Attempted(host, ContentRefresh, executable, now, later, answers, ContentEnds(answers, mode));
      ContentLeaves(host, after, attempt, executable, now, later, answers, mode)
  {
    AttemptedLeaves(host, ContentRefresh, executable, now, later, answers, ContentEnds(answers, mode));
    hide Attempted, EndsCompleted, EndsCancelled, EndsFailed, Lent;
  }

  lemma {:induction false} DiscoveryAttemptLeaves(
      host: Host, executable: bool, now: nat, later: nat, answers: Answers, cursorChanged: bool)
    ensures var (after, attempt) :=
        Attempted(host, Discovery, executable, now, later, answers, DiscoveryEnds(answers, cursorChanged));
      DiscoveryLeaves(host, after, attempt, executable, now, later, answers, cursorChanged)
  {
    AttemptedLeaves(host, Discovery, executable, now, later, answers, DiscoveryEnds(answers, cursorChanged));
    hide Attempted, EndsCompleted, EndsCancelled, EndsFailed, Lent;
  }

  // ----- The attempts -----

  /** How publishing a prepared chunk ends its attempt. */
  method ConcludePublication(
      runtime: IndexerHostRuntime, kind: Kind, session: Session, publication: Publication, later: nat)
    returns (attempt: Attempt)
    requires runtime.Valid()
    modifies runtime, runtime.discovery, runtime.content, runtime.stub
    ensures attempt == PublicationEnds(publication, session).0
    ensures runtime.View() == old(runtime.View()).Finished(kind, PublicationEnds(publication, session).1, later)
  {
    hide Host.Finished;
    match publication
    case Published =>
      runtime.FinishSuccess(session, kind, later);
      return Applied;
    case PublicationCancelled =>
      runtime.FinishCancelled(kind, later);
      return Attempt.Cancelled;
    case PublicationFailed(error) =>
      if error.StaleGeneration? {
        runtime.FinishSuperseded(session, kind, later);
        return Attempt.Cancelled;
      }
      runtime.FinishFailure(kind, error.Message(), later);
      return Unavailable;
  }

  method RefreshStubChunk(runtime: IndexerHostRuntime, now: nat, later: nat, answers: Answers)
    returns (attempt: Attempt)
    requires runtime.Valid()
    modifies runtime, runtime.discovery, runtime.content, runtime.stub
    ensures (runtime.View(), attempt)
         == if !runtime.enabled then (old(runtime.View()), Unavailable)
            else Attempted(old(runtime.View()), StubRefresh, runtime.executable, now, later, answers, StubEnds(answers))
    ensures if !runtime.enabled then runtime.View() == old(runtime.View()) && attempt == Unavailable
            else StubLeaves(
              old(runtime.View()), runtime.View(), attempt, runtime.executable, now, later, answers)
  {
    if !runtime.enabled {
      return Unavailable;
    }
    StubAttemptLeaves(runtime.View(), runtime.executable, now, later, answers);
    hide CheckedOut, Host.Finished, StubLeaves;
    var checkout := runtime.CheckoutSession(StubRefresh, now, answers.launch);
    if checkout.Err? {
      runtime.FinishFailure(StubRefresh, checkout.error, later);
      return Unavailable;
    }
    if checkout.value.None? {
      return Unavailable;
    }
    var session := checkout.value.value;
    match answers.request
    case Ok(artifact) =>
      if !artifact {
        if !session.writerPublication {
          runtime.FinishSuccess(session, StubRefresh, later);
          return Applied;
        }
        runtime.FinishFailure(StubRefresh, STUB_OMITTED, later);
        return Unavailable;
      }
      attempt := ConcludePublication(runtime, StubRefresh, session, answers.publication, later);
    case Err(error) =>
      if error.RequestCancelled? {
        runtime.FinishCancelled(StubRefresh, later);
        return Attempt.Cancelled;
      }
      if error.StaleGeneration? {
        runtime.FinishSuperseded(session, StubRefresh, later);
        return Attempt.Cancelled;
      }
      runtime.FinishFailure(StubRefresh, error.Message(), later);
      return Unavailable;
  }

  method RefreshContentChunk(
      runtime: IndexerHostRuntime, now: nat, later: nat, answers: Answers, mode: PublicationMode)
    returns (attempt: Attempt)
    requires runtime.Valid()
    modifies runtime, runtime.discovery, runtime.content, runtime.stub
    ensures (runtime.View(), attempt)
         == if !runtime.enabled then (old(runtime.View()), Unavailable)
            else Attempted(old(runtime.View()), ContentRefresh, runtime.executable, now, later, answers,
                           ContentEnds(answers, mode))
    ensures if !runtime.enabled then runtime.View() == old(runtime.View()) && attempt == Unavailable
            else ContentLeaves(
              old(runtime.View()), runtime.View(), attempt, runtime.executable, now, later, answers, mode)
  {
    if !runtime.enabled {
      return Unavailable;
    }
    ContentAttemptLeaves(runtime.View(), runtime.executable, now, later, answers, mode);
    hide CheckedOut, Host.Finished, ContentLeaves;
    var checkout := runtime.CheckoutSession(ContentRefresh, now, answers.launch);
    if checkout.Err? {
      runtime.FinishFailure(ContentRefresh, checkout.error, later);
      return Unavailable;
    }
    if checkout.value.None? {
      return Unavailable;
    }
    var session := checkout.value.value;
    match answers.request
    case Ok(artifact) =>
      if !artifact {
        if !session.writerPublication {
          runtime.FinishSuccess(session, ContentRefresh, later);
          return Applied;
        }
        runtime.FinishFailure(ContentRefresh, CONTENT_OMITTED, later);
        return Unavailable;
      }
      if answers.publication.Published? && mode == CoreAndSubstring && answers.detachedError.Some? {
        runtime.FinishFailure(ContentRefresh, answers.detachedError.value, later);
        return Applied;
      }
      attempt := ConcludePublication(runtime, ContentRefresh, session, answers.publication, later);
    case Err(error) =>
      if error.RequestCancelled? {
        runtime.FinishCancelled(ContentRefresh, later);
        return Attempt.Cancelled;
      }
      if error.StaleGeneration? {
        runtime.FinishSuperseded(session, ContentRefresh, later);
        return Attempt.Cancelled;
      }
      runtime.FinishFailure(ContentRefresh, error.Message(), later);
      return Unavailable;
  }

  // ----- The discovery cursor -----

  const REQUEST_BUDGET_BYTES: nat := 256 * 1024

  function PathBytes(path: string): nat {
    2 * |Encode(path)| + 4
  }

  function Bytes(paths: seq<string>): nat {
    if paths == [] then 0 else PathBytes(paths[0]) + Bytes(paths[1..])
  }

  datatype Partition = Partition(request: seq<string>, deferred: seq<string>, pruned: nat)

  function Placed(partition: Partition, path: string, excluded: string -> bool): Partition {
    if excluded(path) then partition.(pruned := partition.pruned + 1)
    else if partition.request != [] && Bytes(partition.request) + PathBytes(path) > REQUEST_BUDGET_BYTES
    then partition.(deferred := partition.deferred + [path])
    else partition.(request := partition.request + [path])
  }

  /** What goes with this request, what waits, and how many are excluded. */
  function Partitioned(paths: seq<string>, excluded: string -> bool): Partition {
    if paths == [] then Partition([], [], 0)
    else Placed(Partitioned(paths[..|paths| - 1], excluded), paths[|paths| - 1], excluded)
  }

  method PartitionDiscoveryCursor(paths: seq<string>, excluded: string -> bool) returns (r: Partition)
    ensures r == Partitioned(paths, excluded)
  {
    var request, deferred: seq<string>, pruned, estimated := [], [], 0, 0;
    for i := 0 to |paths|
      invariant Partition(request, deferred, pruned) == Partitioned(paths[..i], excluded)
      invariant estimated == Bytes(request)
    {
      var path := paths[i];
      assert paths[..i + 1][..i] == paths[..i];
      BytesNext(request, path);
      if excluded(path) {
        pruned := pruned + 1;
      } else if request != [] && estimated + PathBytes(path) > REQUEST_BUDGET_BYTES {
        deferred := deferred + [path];
      } else {
        estimated := estimated + PathBytes(path);
        request := request + [path];
      }
    }
    assert paths[..|paths|] == paths;
    r := Partition(request, deferred, pruned);
  }

  lemma {:induction false} BytesNext(paths: seq<string>, path: string)
    ensures Bytes(paths + [path]) == Bytes(paths) + PathBytes(path)
  {
    if paths != [] {
      assert (paths + [path])[1..] == paths[1..] + [path];
      BytesNext(paths[1..], path);
    }
  }

  function Kept(excluded: string -> bool): string -> bool {
    path => !excluded(path)
  }

  /** The paths that go, or those that do not. */
  function Chosen(paths: seq<string>, goes: seq<bool>, which: bool): seq<string>
    requires |goes| == |paths|
  {
    if paths == [] then []
    else
      var n := |paths| - 1;
      Chosen(paths[..n], goes[..n], which) + if goes[n] == which then [paths[n]] else []
  }

  /** Each directory goes or waits, both in their order. */
  ghost predicate SplitsInOrder(paths: seq<string>, request: seq<string>, deferred: seq<string>) {
    exists goes: seq<bool> | |goes| == |paths| ::
      Chosen(paths, goes, true) == request && Chosen(paths, goes, false) == deferred
  }

  lemma {:induction false} SplitOneMore(
      paths: seq<string>, request: seq<string>, deferred: seq<string>, path: string, now: bool)
    requires SplitsInOrder(paths, request, deferred)
    ensures SplitsInOrder(
      paths + [path], if now then request + [path] else request, if now then deferred else deferred + [path])
  {
    var goes: seq<bool> :| |goes| == |paths| && Chosen(paths, goes, true) == request && Chosen(paths, goes, false) == deferred;
    var more, longer := goes + [now], paths + [path];
    assert longer[..|paths|] == paths && more[..|paths|] == goes;
    assert Chosen(longer, more, true) == if now then request + [path] else request + [];
    assert Chosen(longer, more, false) == if now then deferred + [] else deferred + [path];
  }

  /** What a partition of the directories `kept` so far, out of `seen`, is to satisfy. */
  ghost predicate Complete(p: Partition, kept: seq<string>, seen: nat) {
    SendsWithinBudget(p, kept, seen) && WaitsForRoom(p) && SplitsInOrder(kept, p.request, p.deferred)
  }

  /** All are accounted for, the first one is sent, and of more than one no more than fit. */
  ghost predicate SendsWithinBudget(p: Partition, kept: seq<string>, seen: nat) {
    && multiset(p.request) + multiset(p.deferred) == multiset(kept)
    && p.pruned + |kept| == seen
    && (p.deferred == [] ==> p.request == kept)
    && (kept != [] ==> p.request != [] && p.request[0] == kept[0])
    && (|p.request| > 1 ==> Bytes(p.request) <= REQUEST_BUDGET_BYTES)
  }

  /** What waits does not fit any more. */
  ghost predicate WaitsForRoom(p: Partition) {
    forall path <- p.deferred :: Bytes(p.request) + 2 * |Encode(path)| + 4 > 262_144
  }

  lemma {:induction false} PlacedWaits(p: Partition, path: string, excluded: string -> bool)
    requires WaitsForRoom(p)
    ensures WaitsForRoom(Placed(p, path, excluded))
  {
    assert PathBytes(path) == 2 * |Encode(path)| + 4;
    hide PathBytes, Encode;
    BytesNext(p.request, path);
    hide Bytes;
  }

  lemma {:induction false} PlacedSplits(p: Partition, kept: seq<string>, path: string, excluded: string -> bool)
    requires SplitsInOrder(kept, p.request, p.deferred)
    ensures var next := Placed(p, path, excluded);
      SplitsInOrder(if excluded(path) then kept else kept + [path], next.request, next.deferred)
  {
    hide SplitsInOrder, Bytes, PathBytes;
    SplitOneMore(kept, p.request, p.deferred, path, true);
    SplitOneMore(kept, p.request, p.deferred, path, false);
  }

  lemma {:induction false} PlacedIsComplete(
      p: Partition, kept: seq<string>, seen: nat, path: string, excluded: string -> bool)
    requires Complete(p, kept, seen)
    ensures Complete(Placed(p, path, excluded), if excluded(path) then kept else kept + [path], seen + 1)
  {
    hide Placed, SendsWithinBudget, WaitsForRoom, SplitsInOrder;
    PlacedInBudget(p, kept, seen, path, excluded);
    PlacedWaits(p, path, excluded);
    PlacedSplits(p, kept, path, excluded);
  }

  lemma {:induction false} PlacedInBudget(
      p: Partition, kept: seq<string>, seen: nat, path: string, excluded: string -> bool)
    requires SendsWithinBudget(p, kept, seen)
    ensures SendsWithinBudget(Placed(p, path, excluded), if excluded(path) then kept else kept + [path], seen + 1)
  {
    hide PathBytes;
    BytesNext(p.request, path);
    hide Bytes;
    if kept == [] {
      assert |multiset(p.request)| <= |multiset(kept)|;
    }
  }

  /**
    No directory is lost: the kept ones are sent or wait, each once; the first kept one is sent, so a
    request makes progress; a request of more than one path stays within the budget, and one that
    waits would not fit it any more; and both keep their order.
    */
  lemma {:induction false} NoDirectoryIsLost(paths: seq<string>, excluded: string -> bool)
    ensures Complete(Partitioned(paths, excluded), Filter(paths, Kept(excluded)), |paths|)
    decreases |paths|
  {
    if paths != [] {
      var rest, path := paths[..|paths| - 1], paths[|paths| - 1];
      assert paths == rest + [path];
      KeptOneMore(rest, path, excluded);
      hide Complete, Placed, Filter;
      NoDirectoryIsLost(rest, excluded);
      PlacedIsComplete(Partitioned(rest, excluded), Filter(rest, Kept(excluded)), |rest|, path, excluded);
    } else {
      NothingIsComplete(excluded);
    }
  }

  lemma {:induction false} KeptOneMore(paths: seq<string>, path: string, excluded: string -> bool)
    ensures Filter(paths + [path], Kept(excluded))
         == if excluded(path) then Filter(paths, Kept(excluded)) else Filter(paths, Kept(excluded)) + [path]
  {
    FilterConcat(paths, [path], Kept(excluded));
    assert Filter([path], Kept(excluded)) == if excluded(path) then [] else [path];
    assert Filter(paths, Kept(excluded)) + [] == Filter(paths, Kept(excluded));
  }

  lemma {:induction false} NothingIsComplete(excluded: string -> bool)
    ensures Complete(Partitioned([], excluded), Filter([], Kept(excluded)), 0)
  {
    assert Chosen([], [], true) == [] && Chosen([], [], false) == [];
  }

  datatype DiscoveryResult = DiscoveryResult(pending: Option<seq<string>>, hasMore: bool, excludedCount: nat)

  function PendingOf(result: DiscoveryResult): seq<string> {
    if result.pending.Some? then result.pending.value else []
  }

  /** The sidecar's result with what waited put after what it still has to do, and `pruned` more excluded. */
  ghost predicate Continues(result: DiscoveryResult, reply: DiscoveryResult, deferred: seq<string>, pruned: nat) {
    && PendingOf(result) == PendingOf(reply) + deferred
    && (result.pending.None? <==> reply.pending.None? && deferred == [])
    && (result.hasMore <==> reply.hasMore || deferred != [])
    && result.excludedCount == reply.excludedCount + pruned
  }

  method MergeDeferredDiscoveryCursor(result: DiscoveryResult, deferred: seq<string>) returns (merged: DiscoveryResult)
    ensures Continues(merged, result, deferred, 0)
  {
    if deferred == [] {
      return result;
    }
    var pending := if result.pending.Some? then result.pending.value else [];
    return result.(pending := Some(pending + deferred), hasMore := true);
  }

  /**
    After a chunk every directory of the cursor was sent, is pending or is counted as excluded, each
    once, and what the sidecar left pending still is; nothing pending is overlooked.
    */
  lemma {:induction false} EveryDirectoryIsSentPendingOrExcluded(
      paths: seq<string>, excluded: string -> bool, reply: DiscoveryResult, result: DiscoveryResult)
    requires var partition := Partitioned(paths, excluded);
      Continues(result, reply, partition.deferred, partition.pruned)
    ensures var sent := Partitioned(paths, excluded).request;
      && multiset(sent) + multiset(PendingOf(result))
         == multiset(Filter(paths, Kept(excluded))) + multiset(PendingOf(reply))
      && |sent| + |PendingOf(result)| + result.excludedCount == |paths| + |PendingOf(reply)| + reply.excludedCount
      && ((reply.hasMore <==> PendingOf(reply) != []) ==> (result.hasMore <==> PendingOf(result) != []))
  {
    hide Partitioned, Filter, Bytes;
    NoDirectoryIsLost(paths, excluded);
    var partition, kept := Partitioned(paths, excluded), Filter(paths, Kept(excluded));
    assert |multiset(partition.request) + multiset(partition.deferred)| == |multiset(kept)|;
    assert multiset(PendingOf(result)) == multiset(PendingOf(reply)) + multiset(partition.deferred);
  }

  predicate CursorChanges(pending: Option<seq<string>>, excluded: string -> bool) {
    pending.Some? && (Partitioned(pending.value, excluded).deferred != [] || Partitioned(pending.value, excluded).pruned > 0)
  }

  lemma {:induction false} NothingFiltered<T>(s: seq<T>, keep: T -> bool)
    requires |Filter(s, keep)| == |s|
    ensures Filter(s, keep) == s
  {
    if s != [] {
      FilterShortens(s[1..], keep);
      NothingFiltered(s[1..], keep);
    }
  }

  /** The artifact is to be rewritten exactly if not the whole cursor is sent. */
  lemma {:induction false} CursorChangesExactly(paths: seq<string>, excluded: string -> bool)
    ensures CursorChanges(Some(paths), excluded) <==> Partitioned(paths, excluded).request != paths
  {
    hide Partitioned, Filter, Bytes;
    NoDirectoryIsLost(paths, excluded);
    var p, kept := Partitioned(paths, excluded), Filter(paths, Kept(excluded));
    assert |multiset(p.request) + multiset(p.deferred)| == |multiset(kept)|;
    if p.deferred == [] && p.pruned == 0 {
      NothingFiltered(paths, Kept(excluded));
    }
  }

  predicate Publishes(session: Session) {
    session.writerPublication && session.discoveryPublication
  }

  lemma {:induction false} NothingDeferred(reply: DiscoveryResult)
    ensures Continues(reply, reply, [], 0)
  {
  }

  lemma {:induction false} NothingContinues(result: DiscoveryResult, reply: DiscoveryResult)
    ensures Continues(result, reply, [], 0) ==> result == reply
  {
    assert PendingOf(reply) + [] == PendingOf(reply);
  }

  lemma {:induction false} CountedContinues(
      result: DiscoveryResult, counted: DiscoveryResult, reply: DiscoveryResult, deferred: seq<string>, pruned: nat)
    requires counted == reply.(excludedCount := reply.excludedCount + pruned)
    requires Continues(result, counted, deferred, 0)
    ensures Continues(result, reply, deferred, pruned)
  {
  }

  method DiscoverWorkspaceChunk(
      runtime: IndexerHostRuntime, now: nat, later: nat, answers: Answers,
      pending: Option<seq<string>>, excluded: string -> bool, reply: DiscoveryResult)
    returns (attempt: Attempt, sent: Option<seq<string>>, result: DiscoveryResult)
    requires runtime.Valid()
    modifies runtime, runtime.discovery, runtime.content, runtime.stub
    ensures (runtime.View(), attempt)
         == if !runtime.enabled then (old(runtime.View()), Unavailable)
            else Attempted(old(runtime.View()), Discovery, runtime.executable, now, later, answers,
                           DiscoveryEnds(answers, CursorChanges(pending, excluded)))
    // a session that publishes is sent what fits; any other the cursor as it is
    ensures attempt.Applied? ==>
      var lent := CheckedOut(old(runtime.View()), Discovery, runtime.executable, now, answers.launch).1;
      && lent.Ok? && lent.value.Some?
      && if Publishes(lent.value.value) && pending.Some? then
           var partition := Partitioned(pending.value, excluded);
           sent == Some(partition.request) && Continues(result, reply, partition.deferred, partition.pruned)
         else sent == pending && result == reply
    ensures if !runtime.enabled then runtime.View() == old(runtime.View()) && attempt == Unavailable
            else DiscoveryLeaves(
              old(runtime.View()), runtime.View(), attempt, runtime.executable, now, later, answers, CursorChanges(pending, excluded))
  {
    sent, result := pending, reply;
    if !runtime.enabled {
      return Unavailable, sent, result;
    }
    DiscoveryAttemptLeaves(runtime.View(), runtime.executable, now, later, answers, CursorChanges(pending, excluded));
    hide CheckedOut, Host.Finished, DiscoveryLeaves;
    var checkout := runtime.CheckoutSession(Discovery, now, answers.launch);
    if checkout.Err? {
      runtime.FinishFailure(Discovery, checkout.error, later);
      return Unavailable, sent, result;
    }
    if checkout.value.None? {
      return Unavailable, sent, result;
    }
    var session := checkout.value.value;
    var publishes := Publishes(session);
    var deferred, pruned, changed := [], 0, false;
    if publishes && pending.Some? {
      var partition := PartitionDiscoveryCursor(pending.value, excluded);
      sent, deferred, pruned := Some(partition.request), partition.deferred, partition.pruned;
      changed := deferred != [] || pruned > 0;
    }
    hide Partitioned, Continues, Publishes, PathBytes, Bytes;
    NothingDeferred(reply);
    assert publishes ==> changed == CursorChanges(pending, excluded);
    assert if publishes && pending.Some?
      then Partition(sent.value, deferred, pruned) == Partitioned(pending.value, excluded)
      else sent == pending && deferred == [] && pruned == 0;
    match answers.request
    case Ok(artifact) =>
      if !publishes {
        result := MergeDeferredDiscoveryCursor(reply, deferred);
        NothingContinues(result, reply);
        runtime.FinishSuccess(session, Discovery, later);
        return Applied, sent, result;
      }
      if !artifact {
        runtime.FinishFailure(Discovery, DISCOVERY_OMITTED, later);
        return Unavailable, sent, result;
      }
      if changed && answers.artifactUpdateError.Some? {
        runtime.FinishFailure(Discovery, answers.artifactUpdateError.value, later);
        return Unavailable, sent, result;
      }
      result := reply.(excludedCount := reply.excludedCount + pruned);
      ghost var counted := result;
      result := MergeDeferredDiscoveryCursor(result, deferred);
      CountedContinues(result, counted, reply, deferred, pruned);
      attempt := ConcludePublication(runtime, Discovery, session, answers.publication, later);
    case Err(error) =>
      if error.StaleGeneration? {
        runtime.FinishSuperseded(session, Discovery, later);
        return Attempt.Cancelled, sent, result;
      }
      runtime.FinishFailure(Discovery, error.Message(), later);
      return Unavailable, sent, result;
  }

  // ----- An attempt is one grant and one finish -----

  /** The steps of an attempt that was granted its lane, with the lane's session if it had one. */
  function StepsOnceGranted(
      idle: Option<Session>, kind: Kind, attempt: nat, executable: bool, ready: nat, later: nat, answers: Answers,
      ends: Session -> (Attempt, Finish))
    : seq<Event>
  {
    if idle.Some? then [Event(kind, attempt, later, End(ends(idle.value).1))]
    else if !executable then [Event(kind, attempt, later, End(Failure(NO_EXECUTABLE)))]
    else
      match answers.launch
      case NotStarted(error) => [Event(kind, attempt, later, End(Failure(error)))]
      case Unhealthy(processId, error) =>
        [Event(kind, attempt, ready, Launch(processId))] + [Event(kind, attempt, later, End(Failure(error)))]
      case Healthy(session) =>
        [Event(kind, attempt, ready, Launch(session.processId))]
        + ([Event(kind, attempt, ready, Ready(session))] + [Event(kind, attempt, later, End(ends(session).1))])
  }

  /** The steps of an attempt that asks for its lane `now`, starts a sidecar by `ready` and ends `later`. */
  function Steps(
      lane: Lane, kind: Kind, attempt: nat, executable: bool, now: nat, ready: nat, later: nat, answers: Answers,
      ends: Session -> (Attempt, Finish))
    : seq<Event>
  {
    [Event(kind, attempt, now, Checkout)]
    + if lane.Grants(now) then
        StepsOnceGranted(lane.session, kind, attempt, executable, ready, later, answers, ends)
      else []
  }

  /** The session an attempt gives back is the one it was given. */
  ghost predicate GivesBack(ends: Session -> (Attempt, Finish)) {
    forall session ::
      match ends(session).1
      case Success(s) => s == session
      case Superseded(s) => s == session
      case _ => true
  }

  lemma {:induction false} AttemptsGiveBack(answers: Answers, mode: PublicationMode, cursorChanged: bool)
    ensures GivesBack(StubEnds(answers)) && GivesBack(ContentEnds(answers, mode))
    ensures GivesBack(DiscoveryEnds(answers, cursorChanged))
  {
  }

  lemma {:induction false} RunCons(world: World, event: Event, rest: seq<Event>)
    requires Enabled(world, event)
    ensures IsRun(world, [event] + rest) <==> IsRun(Next(world, event), rest)
    ensures IsRun(Next(world, event), rest) ==> Run(world, [event] + rest) == Run(Next(world, event), rest)
  {
    assert ([event] + rest)[1..] == rest;
  }

  /** A finish right after the world in which the attempt alone is active. */
  lemma {:induction false} EndsAlone(world: World, kind: Kind, attempt: nat, later: nat, finish: Finish)
    requires world.clock <= later && world.LedgerOf(kind).active.Keys == {attempt}
    requires Possible(world.LedgerOf(kind).active, attempt, End(finish))
    ensures var steps := [Event(kind, attempt, later, End(finish))];
      && IsRun(world, steps)
      && Run(world, steps).host == world.host.Finished(kind, finish, later)
      && Run(world, steps).LedgerOf(kind).active == map[]
      && Run(world, steps).LedgerOf(kind).granted == world.LedgerOf(kind).granted
  {
    var event := Event(kind, attempt, later, End(finish));
    RunCons(world, event, []);
    assert [event] + [] == [event];
  }

  lemma {:induction false} GrantedRun(
      world: World, idle: Option<Session>, kind: Kind, attempt: nat, executable: bool, ready: nat, later: nat,
      answers: Answers, ends: Session -> (Attempt, Finish))
    requires world.clock <= ready <= later && GivesBack(ends)
    requires world.LedgerOf(kind).active == map[attempt := if idle.Some? then Holding(idle.value) else Starting]
    ensures var steps := StepsOnceGranted(idle, kind, attempt, executable, ready, later, answers, ends);
      && IsRun(world, steps)
      && Run(world, steps).host
         == (if idle.Some? then world.host.Finished(kind, ends(idle.value).1, later)
             else if !executable then world.host.Finished(kind, Failure(NO_EXECUTABLE), later)
             else
               match answers.launch
               case NotStarted(error) => world.host.Finished(kind, Failure(error), later)
               case Unhealthy(processId, error) =>
                 world.host.Launched(kind, processId).Finished(kind, Failure(error), later)
               case Healthy(session) =>
                 world.host.Launched(kind, session.processId).Finished(kind, ends(session).1, later))
      && Run(world, steps).LedgerOf(kind).active == map[]
      && Run(world, steps).LedgerOf(kind).granted == world.LedgerOf(kind).granted
  {
    hide IsRun, Run, Host.Finished, Host.Launched;
    if idle.Some? {
      EndsAlone(world, kind, attempt, later, ends(idle.value).1);
    } else if !executable {
      EndsAlone(world, kind, attempt, later, Failure(NO_EXECUTABLE));
    } else {
      match answers.launch
      case NotStarted(error) => EndsAlone(world, kind, attempt, later, Failure(error));
      case Unhealthy(processId, error) =>
        var launch := Event(kind, attempt, ready, Launch(processId));
        EndsAlone(Next(world, launch), kind, attempt, later, Failure(error));
        RunCons(world, launch, [Event(kind, attempt, later, End(Failure(error)))]);
      case Healthy(session) =>
        var launch := Event(kind, attempt, ready, Launch(session.processId));
        var ready := Event(kind, attempt, ready, Ready(session));
        var end := [Event(kind, attempt, later, End(ends(session).1))];
        EndsAlone(Next(Next(world, launch), ready), kind, attempt, later, ends(session).1);
        RunCons(Next(world, launch), ready, end);
        RunCons(world, launch, [ready] + end);
    }
  }

  lemma {:induction false} NoSteps(world: World)
    ensures IsRun(world, []) && Run(world, []) == world
  {
  }

  /** Left alone, an attempt is a run with exactly one finish if its lane was granted. */
  lemma {:induction false} AttemptIsARun(
      world: World, kind: Kind, attempt: nat, executable: bool, now: nat, ready: nat, later: nat, answers: Answers,
      ends: Session -> (Attempt, Finish))
    requires Sound(world) && world.clock <= now <= ready <= later && attempt !in world.LedgerOf(kind).active
    requires GivesBack(ends)
    ensures var steps := Steps(world.host.LaneOf(kind), kind, attempt, executable, now, ready, later, answers, ends);
      && IsRun(world, steps)
      && Run(world, steps).host == Attempted(world.host, kind, executable, now, later, answers, ends).0
      && Run(world, steps).LedgerOf(kind).active == world.LedgerOf(kind).active
      && Run(world, steps).LedgerOf(kind).granted
         == world.LedgerOf(kind).granted + if world.host.LaneOf(kind).Grants(now) then 1 else 0
  {
    hide IsRun, Run, Host.Finished, StepsOnceGranted;
    var lane := world.host.LaneOf(kind);
    var checkout := Event(kind, attempt, now, Checkout);
    var next := Next(world, checkout);
    if !lane.Grants(now) {
      RunCons(world, checkout, []);
      NoSteps(next);
    } else {
      assert LaneSound(lane, world.LedgerOf(kind), world.clock);
      assert world.LedgerOf(kind).active == map[];
      GrantedRun(next, lane.session, kind, attempt, executable, ready, later, answers, ends);
      RunCons(world, checkout, StepsOnceGranted(lane.session, kind, attempt, executable, ready, later, answers, ends));
    }
  }

  // ----- Whatever comes between its steps -----

  function OwnSteps(kind: Kind, attempt: nat): Event -> bool {
    (event: Event) => event.kind == kind && event.attempt == attempt
  }

  /** The steps of the attempt, from the first to the last, with any steps of others between them. */
  ghost predicate Interleaves(events: seq<Event>, kind: Kind, attempt: nat, steps: seq<Event>) {
    && events != [] && Filter(events, OwnSteps(kind, attempt)) == steps
    && OwnSteps(kind, attempt)(events[0]) && OwnSteps(kind, attempt)(events[|events| - 1])
  }

  /** Two worlds in which the lane looks the same. */
  predicate Alike(world: World, alone: World, kind: Kind) {
    && world.host.LaneOf(kind) == alone.host.LaneOf(kind) && world.LedgerOf(kind) == alone.LedgerOf(kind)
    && alone.clock <= world.clock
  }

  lemma {:induction false} OwnStep(world: World, alone: World, event: Event)
    requires Alike(world, alone, event.kind) && Enabled(world, event)
    ensures Enabled(alone, event) && Alike(Next(world, event), Next(alone, event), event.kind)
  {
    hide LaneNext, LedgerNext, HostNext, Possible;
    LaneIsNext(world.host, event.kind, event.now, event.action);
    LaneIsNext(alone.host, event.kind, event.now, event.action);
  }

  /** While an attempt holds the lane, no step of another changes it. */
  lemma {:induction false} OtherStep(world: World, alone: World, kind: Kind, attempt: nat, event: Event)
    requires Sound(world) && Enabled(world, event) && !OwnSteps(kind, attempt)(event)
    requires Alike(world, alone, kind) && world.LedgerOf(kind).active.Keys == {attempt}
    ensures Alike(Next(world, event), alone, kind)
  {
    assert LaneSound(world.host.LaneOf(kind), world.LedgerOf(kind), world.clock);
    hide LaneSound, ShowsProcess, BacksOff, Spaced, HostNext;
    LaneIsNext(world.host, event.kind, event.now, event.action);
    assert world.host.LaneOf(kind).inFlight by { HeldInFlight(world, kind, attempt); }
  }

  lemma {:induction false} HeldInFlight(world: World, kind: Kind, attempt: nat)
    requires Sound(world) && world.LedgerOf(kind).active.Keys == {attempt}
    ensures world.host.LaneOf(kind).inFlight
  {
    assert LaneSound(world.host.LaneOf(kind), world.LedgerOf(kind), world.clock);
    assert |world.LedgerOf(kind).active.Keys| == 1;
  }

  lemma {:induction false} OwnStepHolds(world: World, event: Event)
    requires Enabled(world, event) && world.LedgerOf(event.kind).active.Keys == {event.attempt}
    requires !event.action.End?
    ensures Next(world, event).LedgerOf(event.kind).active.Keys == {event.attempt}
  {
    hide HostNext;
  }

  predicate EndsLast(steps: seq<Event>) {
    forall i | 0 <= i < |steps| - 1 :: !steps[i].action.End?
  }

  lemma {:induction false} FilterCons<T>(s: seq<T>, keep: T -> bool)
    requires s != []
    ensures Filter(s, keep) == if keep(s[0]) then [s[0]] + Filter(s[1..], keep) else Filter(s[1..], keep)
  {
  }

  /** From its grant to its finish the lane and its ledger go as if the attempt were alone. */
  lemma {:induction false} HeldUndisturbed(
      world: World, alone: World, kind: Kind, attempt: nat, events: seq<Event>, steps: seq<Event>)
    requires Sound(world) && IsRun(world, events) && Alike(world, alone, kind)
    requires world.LedgerOf(kind).active.Keys == {attempt} && EndsLast(steps)
    requires Filter(events, OwnSteps(kind, attempt)) == steps
    requires events != [] && OwnSteps(kind, attempt)(events[|events| - 1])
    ensures IsRun(alone, steps) && Alike(Run(world, events), Run(alone, steps), kind)
    decreases |events|
  {
    hide Sound, Enabled, Next, Alike, Filter;
    var event, rest := events[0], events[1..];
    FilterCons(events, OwnSteps(kind, attempt));
    FilterMember(rest, OwnSteps(kind, attempt));
    NextIsSound(world, event);
    if OwnSteps(kind, attempt)(event) {
      OwnStep(world, alone, event);
      RunCons(alone, event, steps[1..]);
      assert steps == [event] + steps[1..];
      if rest == [] {
        NothingOwn(kind, attempt);
        NoSteps(Next(alone, event));
      } else {
        assert rest[|rest| - 1] in rest && rest[|rest| - 1] in steps[1..];
        assert !steps[0].action.End?;
        OwnStepHolds(world, event);
        HeldUndisturbed(Next(world, event), Next(alone, event), kind, attempt, rest, steps[1..]);
      }
    } else {
      OtherStep(world, alone, kind, attempt, event);
      OtherHolds(world, kind, attempt, event);
      HeldUndisturbed(Next(world, event), alone, kind, attempt, rest, steps);
    }
  }

  lemma {:induction false} OtherHolds(world: World, kind: Kind, attempt: nat, event: Event)
    requires Sound(world) && Enabled(world, event) && !OwnSteps(kind, attempt)(event)
    requires world.LedgerOf(kind).active.Keys == {attempt}
    ensures Next(world, event).LedgerOf(kind).active.Keys == {attempt}
  {
    hide Sound, Enabled, Next;
    SameWorld(world, kind);
    OtherStep(world, world, kind, attempt, event);
  }

  lemma {:induction false} SameWorld(world: World, kind: Kind)
    ensures Alike(world, world, kind)
  {
  }

  lemma {:induction false} EndComesLast(
      idle: Option<Session>, kind: Kind, attempt: nat, executable: bool, ready: nat, later: nat, answers: Answers,
      ends: Session -> (Attempt, Finish))
    ensures var steps := StepsOnceGranted(idle, kind, attempt, executable, ready, later, answers, ends);
      steps != [] && EndsLast(steps)
  {
  }

  lemma {:induction false} GrantHolds(world: World, kind: Kind, attempt: nat, now: nat)
    requires Sound(world) && world.clock <= now && attempt !in world.LedgerOf(kind).active
    requires world.host.LaneOf(kind).Grants(now)
    ensures Next(world, Event(kind, attempt, now, Checkout)).LedgerOf(kind).active.Keys == {attempt}
  {
    assert LaneSound(world.host.LaneOf(kind), world.LedgerOf(kind), world.clock);
    assert world.LedgerOf(kind).active == map[];
  }

  lemma {:induction false} NothingOwn(kind: Kind, attempt: nat)
    ensures Filter([], OwnSteps(kind, attempt)) == []
  {
  }

  lemma {:induction false} LastIsOwn(events: seq<Event>, kind: Kind, attempt: nat)
    requires |events| > 1 && OwnSteps(kind, attempt)(events[|events| - 1])
    ensures Filter(events[1..], OwnSteps(kind, attempt)) != []
  {
    FilterMember(events[1..], OwnSteps(kind, attempt));
    assert events[|events| - 1] in events[1..];
  }

  lemma {:induction false} Undisturbed(
      world: World, kind: Kind, attempt: nat, executable: bool, now: nat, ready: nat, later: nat, answers: Answers,
      ends: Session -> (Attempt, Finish), events: seq<Event>)
    requires Sound(world) && world.clock <= now <= ready <= later && attempt !in world.LedgerOf(kind).active
    requires IsRun(world, events)
    requires Interleaves(
      events, kind, attempt,
      Steps(world.host.LaneOf(kind), kind, attempt, executable, now, ready, later, answers, ends))
    ensures var steps := Steps(world.host.LaneOf(kind), kind, attempt, executable, now, ready, later, answers, ends);
      IsRun(world, steps) && Alike(Run(world, events), Run(world, steps), kind)
  {
    hide Sound, Enabled, Next, Alike, Filter, StepsOnceGranted, Lane.Grants;
    var lane := world.host.LaneOf(kind);
    var checkout, rest := events[0], events[1..];
    FilterCons(events, OwnSteps(kind, attempt));
    var steps := Steps(lane, kind, attempt, executable, now, ready, later, answers, ends);
    assert checkout == steps[0] == Event(kind, attempt, now, Checkout) && Filter(rest, OwnSteps(kind, attempt)) == steps[1..];
    var next := Next(world, checkout);
    SameWorld(next, kind);
    RunCons(world, checkout, steps[1..]);
    assert steps == [checkout] + steps[1..];
    if lane.Grants(now) {
      EndComesLast(lane.session, kind, attempt, executable, ready, later, answers, ends);
      GrantHolds(world, kind, attempt, now);
      NextIsSound(world, checkout);
      assert rest != [] by { NothingOwn(kind, attempt); }
      HeldUndisturbed(next, next, kind, attempt, rest, steps[1..]);
    } else {
      if |events| > 1 {
        LastIsOwn(events, kind, attempt);
      }
      NoSteps(next);
    }
  }

  /** How an attempt on a lane ends. */
  function EndsOf(kind: Kind, answers: Answers, mode: PublicationMode, cursorChanged: bool)
    : Session -> (Attempt, Finish)
  {
    match kind
    case Discovery => DiscoveryEnds(answers, cursorChanged)
    case ContentRefresh => ContentEnds(answers, mode)
    case StubRefresh => StubEnds(answers)
  }

  /**
    Discovery, content and stub attempts alike, whatever others do on any lane between their steps:
    the lane ends as if the attempt had run alone, it is held by nobody, and it was granted once if it
    was to be had.
    */
  lemma {:induction false} AttemptGivesLaneBack(
      world: World, kind: Kind, attempt: nat, executable: bool, now: nat, ready: nat, later: nat, answers: Answers,
      mode: PublicationMode, cursorChanged: bool, events: seq<Event>)
    requires Sound(world) && world.clock <= now <= ready <= later && attempt !in world.LedgerOf(kind).active
    requires IsRun(world, events)
    requires Interleaves(
      events, kind, attempt,
      Steps(world.host.LaneOf(kind), kind, attempt, executable, now, ready, later, answers,
            EndsOf(kind, answers, mode, cursorChanged)))
    ensures var after, ends := Run(world, events), EndsOf(kind, answers, mode, cursorChanged);
      && after.host.LaneOf(kind) == Attempted(world.host, kind, executable, now, later, answers, ends).0.LaneOf(kind)
      && after.LedgerOf(kind).active == world.LedgerOf(kind).active
      && after.LedgerOf(kind).granted
         == world.LedgerOf(kind).granted + if world.host.LaneOf(kind).Grants(now) then 1 else 0
  {
    hide Sound, IsRun, Run, Attempted, Interleaves, Steps, Lane.Grants, GivesBack, StubEnds, ContentEnds, DiscoveryEnds;
    var ends := EndsOf(kind, answers, mode, cursorChanged);
    AttemptsGiveBack(answers, mode, cursorChanged);
    Undisturbed(world, kind, attempt, executable, now, ready, later, answers, ends, events);
    AttemptIsARun(world, kind, attempt, executable, now, ready, later, answers, ends);
  }
}
