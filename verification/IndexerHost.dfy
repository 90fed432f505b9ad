/** The indexer host: three lanes, each lending one sidecar session at a time, with restart backoff. */
module IndexerHost {
  import opened Sequences

  const MILLISECOND: nat := 1_000_000
  const INITIAL_RESTART_BACKOFF: nat := 250 * MILLISECOND
  const MAX_RESTART_BACKOFF: nat := 30_000 * MILLISECOND
  const MAX_U32: nat := 0xFFFF_FFFF
  const MAX_U64: nat := 0xFFFF_FFFF_FFFF_FFFF

  datatype Kind = Discovery | ContentRefresh | StubRefresh

  /** A running sidecar and whether it leaves publication, and that of discovery, to the writer. */
  datatype Session = Session(processId: nat, writerPublication: bool, discoveryPublication: bool)

  datatype Status = Idle | Disabled | Running | Degraded | Backoff

  function Saturated(n: nat, maximum: nat): (r: nat)
    ensures r <= maximum && r <= n && (r < maximum ==> r == n)
  {
    if n > maximum then maximum else n
  }

  function Pow2(n: nat): nat {
    if n == 0 then 1 else 2 * Pow2(n - 1)
  }

  /** Nanoseconds to wait after so many failures in a row. */
  function RestartBackoff(failures: nat): nat {
    var exponent := if failures == 0 then 0 else if failures - 1 > 16 then 16 else failures - 1;
    var delay := INITIAL_RESTART_BACKOFF * Pow2(exponent);
    if delay > MAX_RESTART_BACKOFF then MAX_RESTART_BACKOFF else delay
  }

  // ----- What the operations are to do -----

  datatype Lane = Lane(
    session: Option<Session>,
    inFlight: bool,
    activeProcessId: Option<nat>,
    restartCount: nat,
    consecutiveFailures: nat,
    retryNotBefore: Option<nat>)
  {
    predicate IsBackingOff(now: nat) {
      retryNotBefore.Some? && retryNotBefore.value > now
    }

    predicate Grants(now: nat) {
      !inFlight && !IsBackingOff(now)
    }

    /** The lane is lent: its idle session goes along. */
    function Granted(): Lane {
      this.(
        restartCount := if consecutiveFailures > 0 then Saturated(restartCount + 1, MAX_U64) else restartCount,
        inFlight := true,
        session := None,
        activeProcessId := if session.Some? then Some(session.value.processId) else activeProcessId)
    }

    function Launched(processId: nat): Lane {
      this.(activeProcessId := Some(processId))
    }

    /** The session comes back, after a success or because the work was superseded. */
    function Returned(s: Session): Lane {
      this.(
        session := Some(s), inFlight := false, activeProcessId := None,
        consecutiveFailures := 0, retryNotBefore := None)
    }

    function Cancelled(): Lane {
      this.(
        session := None, inFlight := false, activeProcessId := None,
        consecutiveFailures := 0, retryNotBefore := None)
    }

    function Failed(now: nat): Lane {
      var failures := Saturated(consecutiveFailures + 1, MAX_U32);
      this.(
        session := None, inFlight := false, activeProcessId := None,
        consecutiveFailures := failures, retryNotBefore := Some(now + RestartBackoff(failures)))
    }
  }

  /** How an attempt gives its lane back. */
  datatype Finish = Success(session: Session) | Failure(error: string) | Cancelled | Superseded(session: Session)

  datatype Counters = Counters(
    completedDiscovery: nat, completedContent: nat, cancelledContent: nat,
    completedStub: nat, cancelledStub: nat, degraded: nat)
  {
    function Counted(kind: Kind, finish: Finish): Counters {
      match finish
      case Failure(_) => this.(degraded := Saturated(degraded + 1, MAX_U64))
      case Success(_) =>
        (match kind
         case Discovery => this.(completedDiscovery := Saturated(completedDiscovery + 1, MAX_U64))
         case ContentRefresh => this.(completedContent := Saturated(completedContent + 1, MAX_U64))
         case StubRefresh => this.(completedStub := Saturated(completedStub + 1, MAX_U64)))
      case _ =>
        match kind
        case Discovery => this
        case ContentRefresh => this.(cancelledContent := Saturated(cancelledContent + 1, MAX_U64))
        case StubRefresh => this.(cancelledStub := Saturated(cancelledStub + 1, MAX_U64))
    }
  }

  datatype Host = Host(
    status: Status, discovery: Lane, content: Lane, stub: Lane, counters: Counters, lastError: Option<string>)
  {
    function LaneOf(kind: Kind): Lane {
      match kind
      case Discovery => discovery
      case ContentRefresh => content
      case StubRefresh => stub
    }

    function WithLane(kind: Kind, lane: Lane): (host: Host)
      ensures host.LaneOf(kind) == lane
      ensures forall other :: other != kind ==> host.LaneOf(other) == LaneOf(other)
    {
      match kind
      case Discovery => this.(discovery := lane)
      case ContentRefresh => this.(content := lane)
      case StubRefresh => this.(stub := lane)
    }

    predicate AnyInFlight() {
      discovery.inFlight || content.inFlight || stub.inFlight
    }

    function Granted(kind: Kind): Host {
      WithLane(kind, LaneOf(kind).Granted()).(status := Running)
    }

    function Launched(kind: Kind, processId: nat): Host {
      WithLane(kind, LaneOf(kind).Launched(processId))
    }

    function FinishedLane(kind: Kind, finish: Finish, now: nat): Lane {
      match finish
      case Success(session) => LaneOf(kind).Returned(session)
      case Superseded(session) => LaneOf(kind).Returned(session)
      case Cancelled => LaneOf(kind).Cancelled()
      case Failure(_) => LaneOf(kind).Failed(now)
    }

    function Finished(kind: Kind, finish: Finish, now: nat): Host {
      var host := WithLane(kind, FinishedLane(kind, finish, now)).(
        counters := counters.Counted(kind, finish),
        lastError := if finish.Failure? then Some(finish.error) else lastError);
      host.(status := if host.AnyInFlight() then Running else if finish.Failure? then Degraded else Idle)
    }

    function VisibleStatus(now: nat): Status {
      if AnyInFlight() then Running
      else if discovery.IsBackingOff(now) || content.IsBackingOff(now) || stub.IsBackingOff(now) then Backoff
      else status
    }
  }

  // ----- The lane and the runtime -----

  class IndexerHostLaneState {
    var session: Option<Session>
    var inFlight: bool
    var activeProcessId: Option<nat>
    var restartCount: nat
    var consecutiveFailures: nat
    var retryNotBefore: Option<nat>

    ghost function View(): Lane
      reads this
    {
      Lane(session, inFlight, activeProcessId, restartCount, consecutiveFailures, retryNotBefore)
    }

    constructor ()
      ensures View() == Lane(None, false, None, 0, 0, None)
    {
      session, inFlight, activeProcessId := None, false, None;
      restartCount, consecutiveFailures, retryNotBefore := 0, 0, None;
    }

    predicate IsBackingOff(now: nat)
      reads this
    {
      retryNotBefore.Some? && retryNotBefore.value > now
    }

    method Reset()
      modifies this
      ensures View() == old(View()).(session := None, inFlight := false, activeProcessId := None)
    {
      session := None;
      inFlight := false;
      activeProcessId := None;
    }

    method MarkStarting()
      modifies this
      ensures View() == old(View()).(restartCount := restartCount)
      ensures restartCount
           == if old(consecutiveFailures) > 0 then Saturated(old(restartCount) + 1, MAX_U64) else old(restartCount)
    {
      if consecutiveFailures > 0 {
        restartCount := Saturated(restartCount + 1, MAX_U64);
      }
    }

    method MarkSuccess()
      modifies this
      ensures View() == old(View()).(consecutiveFailures := 0, retryNotBefore := None)
    {
      consecutiveFailures := 0;
      retryNotBefore := None;
    }

    method MarkFailure(now: nat)
      modifies this
      ensures View() == old(View()).Failed(now)
    {
      Reset();
      consecutiveFailures := Saturated(consecutiveFailures + 1, MAX_U32);
      retryNotBefore := Some(now + RestartBackoff(consecutiveFailures));
    }
  }

  /** What starting a sidecar comes to. */
  datatype Launch = NotStarted(error: string) | Unhealthy(processId: nat, error: string) | Healthy(session: Session)

  const NO_EXECUTABLE: string := "Indexer executable is unavailable"

  /** The lane's session, a fresh one, or none while it is lent or backing off. */
  function CheckedOut(host: Host, kind: Kind, executable: bool, now: nat, launch: Launch)
    : (Host, Result<Option<Session>, string>)
  {
    var lane := host.LaneOf(kind);
    if !lane.Grants(now) then (host, Ok(None))
    else if lane.session.Some? then (host.Granted(kind), Ok(lane.session))
    else if !executable then (host.Granted(kind), Err(NO_EXECUTABLE))
    else
      match launch
      case NotStarted(error) => (host.Granted(kind), Err(error))
      case Unhealthy(processId, error) => (host.Granted(kind).Launched(kind, processId), Err(error))
      case Healthy(session) => (host.Granted(kind).Launched(kind, session.processId), Ok(Some(session)))
  }

  class IndexerHostRuntime {
    const enabled: bool
    const executable: bool
    const discovery: IndexerHostLaneState
    const content: IndexerHostLaneState
    const stub: IndexerHostLaneState
    var status: Status
    var counters: Counters
    var lastError: Option<string>

    ghost predicate Valid() {
      discovery != content && content != stub && discovery != stub
    }

    ghost function View(): Host
      reads this, discovery, content, stub
    {
      Host(status, discovery.View(), content.View(), stub.View(), counters, lastError)
    }

    constructor (enabled: bool, executable: bool)
      ensures Valid() && fresh({discovery, content, stub})
      ensures this.enabled == enabled && this.executable == executable
      ensures View() == Initial(enabled)
    {
      this.enabled, this.executable := enabled, executable;
      discovery := new IndexerHostLaneState();
      content := new IndexerHostLaneState();
      stub := new IndexerHostLaneState();
      status := if enabled then Idle else Disabled;
      counters := Counters(0, 0, 0, 0, 0, 0);
      lastError := None;
    }

    function LaneOf(kind: Kind): (lane: IndexerHostLaneState)
      ensures lane in {discovery, content, stub}
    {
      match kind
      case Discovery => discovery
      case ContentRefresh => content
      case StubRefresh => stub
    }

    predicate AnyInFlight()
      reads this, discovery, content, stub
    {
      discovery.inFlight || content.inFlight || stub.inFlight
    }

    method CheckoutSession(kind: Kind, now: nat, launch: Launch) returns (r: Result<Option<Session>, string>)
      requires Valid()
      modifies this, discovery, content, stub
      ensures (View(), r) == CheckedOut(old(View()), kind, executable, now, launch)
    {
      var lane := LaneOf(kind);
      if lane.inFlight {
        return Ok(None);
      }
      if lane.IsBackingOff(now) {
        return Ok(None);
      }
      status := Running;
      lane.MarkStarting();
      lane.inFlight := true;
      if lane.session.Some? {
        var session := lane.session.value;
        lane.session := None;
        lane.activeProcessId := Some(session.processId);
        return Ok(Some(session));
      }
      if !executable {
        return Err(NO_EXECUTABLE);
      }
      match launch
      case NotStarted(error) =>
        return Err(error);
      case Unhealthy(processId, error) =>
        lane.activeProcessId := Some(processId);
        return Err(error);
      case Healthy(session) =>
        lane.activeProcessId := Some(session.processId);
        return Ok(Some(session));
    }

    method FinishSuccess(session: Session, kind: Kind, ghost now: nat)
      requires Valid()
      modifies this, discovery, content, stub
      ensures View() == old(View()).Finished(kind, Success(session), now)
    {
      var lane := LaneOf(kind);
      lane.inFlight := false;
      lane.activeProcessId := None;
      lane.MarkSuccess();
      lane.session := Some(session);
      match kind {
        case Discovery =>
          counters := counters.(completedDiscovery := Saturated(counters.completedDiscovery + 1, MAX_U64));
        case ContentRefresh =>
          counters := counters.(completedContent := Saturated(counters.completedContent + 1, MAX_U64));
        case StubRefresh =>
          counters := counters.(completedStub := Saturated(counters.completedStub + 1, MAX_U64));
      }
      status := if AnyInFlight() then Running else Idle;
    }

    method FinishFailure(kind: Kind, error: string, now: nat)
      requires Valid()
      modifies this, discovery, content, stub
      ensures View() == old(View()).Finished(kind, Failure(error), now)
    {
      LaneOf(kind).MarkFailure(now);
      counters := counters.(degraded := Saturated(counters.degraded + 1, MAX_U64));
      lastError := Some(error);
      status := if AnyInFlight() then Running else Degraded;
    }

    method FinishCancelled(kind: Kind, ghost now: nat)
      requires Valid()
      modifies this, discovery, content, stub
      ensures View() == old(View()).Finished(kind, Finish.Cancelled, now)
    {
      var lane := LaneOf(kind);
      lane.Reset();
      lane.MarkSuccess();
      CountCancelled(kind);
      status := if AnyInFlight() then Running else Idle;
    }

    method FinishSuperseded(session: Session, kind: Kind, ghost now: nat)
      requires Valid()
      modifies this, discovery, content, stub
      ensures View() == old(View()).Finished(kind, Superseded(session), now)
    {
      var lane := LaneOf(kind);
      lane.inFlight := false;
      lane.activeProcessId := None;
      lane.MarkSuccess();
      lane.session := Some(session);
      CountCancelled(kind);
      status := if AnyInFlight() then Running else Idle;
    }

    method CountCancelled(kind: Kind)
      modifies this`counters
      ensures counters == old(counters).Counted(kind, Finish.Cancelled)
    {
      match kind
      case ContentRefresh =>
        counters := counters.(cancelledContent := Saturated(counters.cancelledContent + 1, MAX_U64));
      case StubRefresh =>
        counters := counters.(cancelledStub := Saturated(counters.cancelledStub + 1, MAX_U64));
      case Discovery =>
    }
  }

  function Initial(enabled: bool): Host {
    var lane := Lane(None, false, None, 0, 0, None);
    Host(if enabled then Idle else Disabled, lane, lane, lane, Counters(0, 0, 0, 0, 0, 0), None)
  }
}
