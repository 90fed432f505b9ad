/** Every interleaving of indexer attempts: the lane protocol and its backoff. */
module IndexerRuns {
  import opened Sequences
  import opened IndexerHost

  // ----- Runs -----

  /** How far an attempt that was granted its lane has come. */
  datatype Phase = Starting | Started(processId: nat) | Holding(session: Session)

  /** What happened on one lane; `launches` are the grants since it last came back without a failure. */
  datatype Ledger = Ledger(
    active: map<nat, Phase>, granted: nat, grantedWhileFailing: nat,
    completed: nat, cancelled: nat, superseded: nat, failed: nat,
    launches: seq<nat>, lastFailure: nat)

  datatype Action = Checkout | Launch(processId: nat) | Ready(session: Session) | End(finish: Finish)

  /** One step of an attempt under the lock, at a time. */
  datatype Event = Event(kind: Kind, attempt: nat, now: nat, action: Action)

  datatype World = World(host: Host, discovery: Ledger, content: Ledger, stub: Ledger, clock: nat) {
    function LedgerOf(kind: Kind): Ledger {
      match kind
      case Discovery => discovery
      case ContentRefresh => content
      case StubRefresh => stub
    }

    function WithLedger(kind: Kind, ledger: Ledger): (world: World)
      ensures world.LedgerOf(kind) == ledger && world.host == host && world.clock == clock
      ensures forall other :: other != kind ==> world.LedgerOf(other) == LedgerOf(other)
    {
      match kind
      case Discovery => this.(discovery := ledger)
      case ContentRefresh => this.(content := ledger)
      case StubRefresh => this.(stub := ledger)
    }
  }

  function Start(enabled: bool): World {
    var ledger := Ledger(map[], 0, 0, 0, 0, 0, 0, [], 0);
    World(Initial(enabled), ledger, ledger, ledger, 0)
  }

  /** The order in which an attempt does things; the interleaving of attempts is free. */
  predicate Possible(active: map<nat, Phase>, attempt: nat, action: Action) {
    match action
    case Checkout => attempt !in active
    case Launch(_) => attempt in active && active[attempt] == Starting
    case Ready(session) => attempt in active && active[attempt] == Started(session.processId)
    case End(finish) =>
      && attempt in active
      && match finish
         case Success(session) => active[attempt] == Holding(session)
         case Superseded(session) => active[attempt] == Holding(session)
         case Cancelled => active[attempt].Holding?
         case Failure(_) => true
  }

  predicate Enabled(world: World, event: Event) {
    world.clock <= event.now && Possible(world.LedgerOf(event.kind).active, event.attempt, event.action)
  }

  function LaneNext(lane: Lane, now: nat, action: Action): Lane {
    match action
    case Checkout => if lane.Grants(now) then lane.Granted() else lane
    case Launch(processId) => lane.Launched(processId)
    case Ready(_) => lane
    case End(finish) =>
      match finish
      case Success(session) => lane.Returned(session)
      case Superseded(session) => lane.Returned(session)
      case Cancelled => lane.Cancelled()
      case Failure(_) => lane.Failed(now)
  }

  function Tallied(ledger: Ledger, finish: Finish): Ledger {
    match finish
    case Success(_) => ledger.(completed := ledger.completed + 1)
    case Superseded(_) => ledger.(superseded := ledger.superseded + 1)
    case Cancelled => ledger.(cancelled := ledger.cancelled + 1)
    case Failure(_) => ledger.(failed := ledger.failed + 1)
  }

  function LedgerNext(ledger: Ledger, lane: Lane, attempt: nat, now: nat, action: Action): Ledger
    requires Possible(ledger.active, attempt, action)
  {
    match action
    case Checkout =>
      if !lane.Grants(now) then ledger
      else
        ledger.(
          active := ledger.active[attempt := if lane.session.Some? then Holding(lane.session.value) else Starting],
          granted := ledger.granted + 1,
          grantedWhileFailing := ledger.grantedWhileFailing + if lane.consecutiveFailures > 0 then 1 else 0,
          launches := ledger.launches + [now])
    case Launch(processId) => ledger.(active := ledger.active[attempt := Started(processId)])
    case Ready(session) => ledger.(active := ledger.active[attempt := Holding(session)])
    case End(finish) =>
      Tallied(ledger, finish).(
        active := ledger.active - {attempt},
        launches := if finish.Failure? then ledger.launches else [],
        lastFailure := if finish.Failure? then now else ledger.lastFailure)
  }

  function HostNext(host: Host, kind: Kind, now: nat, action: Action): Host {
    match action
    case Checkout => if host.LaneOf(kind).Grants(now) then host.Granted(kind) else host
    case Launch(processId) => host.Launched(kind, processId)
    case Ready(_) => host
    case End(finish) => host.Finished(kind, finish, now)
  }

  function Next(world: World, event: Event): World
    requires Enabled(world, event)
  {
    var ledger := world.LedgerOf(event.kind);
    var lane := world.host.LaneOf(event.kind);
    world
    .WithLedger(event.kind, LedgerNext(ledger, lane, event.attempt, event.now, event.action))
    .(host := HostNext(world.host, event.kind, event.now, event.action), clock := event.now)
  }

  predicate IsRun(world: World, events: seq<Event>)
    decreases |events|
  {
    events == [] || (Enabled(world, events[0]) && IsRun(Next(world, events[0]), events[1..]))
  }

  function Run(world: World, events: seq<Event>): World
    requires IsRun(world, events)
    decreases |events|
  {
    if events == [] then world else Run(Next(world, events[0]), events[1..])
  }

  // ----- The protocol of one lane -----

  /** Failures since the lane last came back without one. */
  function Streak(ledger: Ledger): int {
    |ledger.launches| - |ledger.active|
  }

  predicate Exclusive(lane: Lane, ledger: Ledger) {
    && (lane.inFlight <==> |ledger.active| == 1)
    && |ledger.active| <= 1
    && (lane.inFlight ==> lane.session.None?)
  }

  /** The process the lane shows is that of the attempt in flight. */
  ghost predicate ShowsProcess(lane: Lane, ledger: Ledger) {
    && (ledger.active == map[] ==> lane.activeProcessId == None)
    && forall attempt <- ledger.active ::
         lane.activeProcessId
         == match ledger.active[attempt]
            case Starting => None
            case Started(processId) => Some(processId)
            case Holding(session) => Some(session.processId)
  }

  predicate Conserved(lane: Lane, ledger: Ledger) {
    && ledger.granted
       == ledger.completed + ledger.cancelled + ledger.superseded + ledger.failed + |ledger.active|
    && lane.restartCount == Saturated(ledger.grantedWhileFailing, MAX_U64)
    && (ledger.completed + ledger.cancelled + ledger.superseded == 0 ==> |ledger.launches| == ledger.granted)
  }

  /** Each launch but the first waits out the backoff of the failures before it. */
  ghost predicate Spaced(launches: seq<nat>) {
    forall i :: 0 < i < |launches| ==> Waited(launches, i)
  }

  predicate Waited(launches: seq<nat>, i: nat)
    requires 0 < i < |launches|
  {
    launches[i - 1] + RestartBackoff(i) <= launches[i]
  }

  predicate BacksOff(lane: Lane, ledger: Ledger, clock: nat) {
    && 0 <= Streak(ledger)
    && lane.consecutiveFailures == Saturated(Streak(ledger), MAX_U32)
    && (Streak(ledger) == 0 ==> lane.retryNotBefore == None)
    && (Streak(ledger) > 0 ==>
          lane.retryNotBefore == Some(ledger.lastFailure + RestartBackoff(Streak(ledger)))
          && (ledger.active == map[] ==> ledger.launches[|ledger.launches| - 1] <= ledger.lastFailure))
    && (ledger.launches != [] ==> ledger.launches[|ledger.launches| - 1] <= clock)
  }

  ghost predicate LaneSound(lane: Lane, ledger: Ledger, clock: nat) {
    && Exclusive(lane, ledger) && ShowsProcess(lane, ledger) && Conserved(lane, ledger)
    && BacksOff(lane, ledger, clock) && Spaced(ledger.launches)
  }

  // ----- Backoff -----

  lemma {:induction false} Pow2Grows(a: nat, b: nat)
    requires a <= b
    ensures 1 <= Pow2(a) <= Pow2(b)
  {
    if b > 0 {
      if a == b { Pow2Grows(a - 1, b - 1); } else { Pow2Grows(a, b - 1); }
    }
  }

  lemma {:induction false} BackoffTable()
    ensures RestartBackoff(0) == RestartBackoff(1) == 250 * MILLISECOND
    ensures RestartBackoff(2) == 500 * MILLISECOND && RestartBackoff(3) == 1_000 * MILLISECOND
    ensures RestartBackoff(4) == 2_000 * MILLISECOND && RestartBackoff(5) == 4_000 * MILLISECOND
    ensures RestartBackoff(6) == 8_000 * MILLISECOND && RestartBackoff(7) == 16_000 * MILLISECOND
  {
    assert Pow2(0) == 1 && Pow2(1) == 2 && Pow2(2) == 4 && Pow2(3) == 8;
    assert Pow2(4) == 16 && Pow2(5) == 32 && Pow2(6) == 64;
  }

  lemma {:induction false} BackoffCapped(failures: nat)
    requires failures >= 8
    ensures RestartBackoff(failures) == MAX_RESTART_BACKOFF
  {
    Pow2Grows(7, if failures - 1 > 16 then 16 else failures - 1);
    assert Pow2(3) == 8 && Pow2(5) == 32 && Pow2(7) == 128;
  }

  /** Doubling from a quarter of a second, up to half a minute from the eighth failure on. */
  lemma {:induction false} BackoffDoubles(failures: nat)
    ensures failures <= 1 ==> RestartBackoff(failures) == 250 * MILLISECOND
    ensures 1 <= failures < 7 ==> RestartBackoff(failures + 1) == 2 * RestartBackoff(failures)
    ensures failures >= 8 ==> RestartBackoff(failures) == 30_000 * MILLISECOND
    ensures RestartBackoff(failures) <= RestartBackoff(failures + 1)
  {
    hide RestartBackoff;
    BackoffTable();
    BackoffCapped(8);
    if failures >= 8 {
      BackoffCapped(failures);
      BackoffCapped(failures + 1);
    }
  }

  /** The 32-bit count of failures is large enough: where it stops counting, the delay no longer changes. */
  lemma {:induction false} BackoffOfSaturated(failures: nat)
    ensures RestartBackoff(Saturated(failures, MAX_U32)) == RestartBackoff(failures)
    ensures failures > 0 ==> RestartBackoff(Saturated(Saturated(failures - 1, MAX_U32) + 1, MAX_U32)) == RestartBackoff(failures)
  {
    hide RestartBackoff;
    if failures > MAX_U32 {
      BackoffCapped(failures);
      BackoffCapped(MAX_U32);
    }
  }

  // ----- Every step keeps the protocol -----

  lemma {:induction false} OnlyOne(active: map<nat, Phase>, attempt: nat, phase: Phase)
    requires |active| <= 1 && attempt in active
    ensures |active| == 1 && active - {attempt} == map[]
    ensures forall other <- active :: other == attempt
    ensures |active[attempt := phase]| == 1
  {
    assert active.Keys == {attempt} by {
      if other :| other in active && other != attempt {
        assert {attempt, other} <= active.Keys;
        SubsetSize({attempt, other}, active.Keys);
      }
    }
    assert active[attempt := phase].Keys == {attempt};
  }

  lemma {:induction false} SubsetSize(a: set<nat>, b: set<nat>)
    requires a <= b
    ensures |a| <= |b|
  {
    assert b == a + (b - a);
  }

  lemma {:induction false} SpacedAppend(launches: seq<nat>, now: nat)
    requires Spaced(launches)
    requires launches == [] || launches[|launches| - 1] + RestartBackoff(|launches|) <= now
    ensures Spaced(launches + [now])
  {
    var longer := launches + [now];
    forall i | 0 < i < |longer| ensures Waited(longer, i) {
      if i < |launches| {
        assert Waited(launches, i);
      }
    }
  }

  lemma {:induction false} CheckoutKeepsSound(lane: Lane, ledger: Ledger, clock: nat, attempt: nat, now: nat)
    requires LaneSound(lane, ledger, clock) && clock <= now && attempt !in ledger.active && lane.Grants(now)
    ensures LaneSound(LaneNext(lane, now, Checkout), LedgerNext(ledger, lane, attempt, now, Checkout), now)
  {
    hide RestartBackoff;
    var granted := LedgerNext(ledger, lane, attempt, now, Checkout);
    assert ledger.active == map[];
    assert granted.active.Keys == {attempt};
    SpacedAppend(ledger.launches, now);
    if Streak(ledger) > 0 {
      assert ledger.lastFailure + RestartBackoff(Streak(ledger)) <= now;
    }
  }

  lemma {:induction false} MoveKeepsSound(
      lane: Lane, ledger: Ledger, clock: nat, attempt: nat, now: nat, action: Action)
    requires LaneSound(lane, ledger, clock) && clock <= now && Possible(ledger.active, attempt, action)
    requires action.Launch? || action.Ready?
    ensures LaneSound(LaneNext(lane, now, action), LedgerNext(ledger, lane, attempt, now, action), now)
  {
    hide RestartBackoff, Spaced;
    var phase := if action.Launch? then Started(action.processId) else Holding(action.session);
    OnlyOne(ledger.active, attempt, phase);
  }

  lemma {:induction false} EndKeepsSound(
      lane: Lane, ledger: Ledger, clock: nat, attempt: nat, now: nat, finish: Finish)
    requires LaneSound(lane, ledger, clock) && clock <= now && Possible(ledger.active, attempt, End(finish))
    ensures LaneSound(LaneNext(lane, now, End(finish)), LedgerNext(ledger, lane, attempt, now, End(finish)), now)
  {
    hide RestartBackoff;
    OnlyOne(ledger.active, attempt, Starting);
    BackoffOfSaturated(|ledger.launches|);
  }

  // ----- Every run -----

  predicate Counts(counters: Counters, discovery: Ledger, content: Ledger, stub: Ledger) {
    && counters.completedDiscovery == Saturated(discovery.completed, MAX_U64)
    && counters.completedContent == Saturated(content.completed, MAX_U64)
    && counters.completedStub == Saturated(stub.completed, MAX_U64)
    && counters.cancelledContent == Saturated(content.cancelled + content.superseded, MAX_U64)
    && counters.cancelledStub == Saturated(stub.cancelled + stub.superseded, MAX_U64)
    && counters.degraded == Saturated(discovery.failed + content.failed + stub.failed, MAX_U64)
  }

  ghost predicate Sound(world: World) {
    && (forall kind :: LaneSound(world.host.LaneOf(kind), world.LedgerOf(kind), world.clock))
    && Counts(world.host.counters, world.discovery, world.content, world.stub)
    && (!world.host.AnyInFlight() ==> world.host.status != Running)
  }

  lemma {:induction false} LaneIsNext(host: Host, kind: Kind, now: nat, action: Action)
    ensures HostNext(host, kind, now, action).LaneOf(kind) == LaneNext(host.LaneOf(kind), now, action)
    ensures forall other :: other != kind ==> HostNext(host, kind, now, action).LaneOf(other) == host.LaneOf(other)
  {
  }

  lemma {:induction false} LaneStaysSound(lane: Lane, ledger: Ledger, clock: nat, later: nat)
    requires LaneSound(lane, ledger, clock) && clock <= later
    ensures LaneSound(lane, ledger, later)
  {
    hide RestartBackoff;
  }

  lemma {:induction false} StepKeepsLane(
      lane: Lane, ledger: Ledger, clock: nat, attempt: nat, now: nat, action: Action)
    requires LaneSound(lane, ledger, clock) && clock <= now && Possible(ledger.active, attempt, action)
    ensures LaneSound(LaneNext(lane, now, action), LedgerNext(ledger, lane, attempt, now, action), now)
  {
    hide LaneSound;
    match action
    case Checkout =>
      if lane.Grants(now) {
        CheckoutKeepsSound(lane, ledger, clock, attempt, now);
      } else {
        LaneStaysSound(lane, ledger, clock, now);
      }
    case End(finish) => EndKeepsSound(lane, ledger, clock, attempt, now, finish);
    case _ => MoveKeepsSound(lane, ledger, clock, attempt, now, action);
  }

  lemma {:induction false} SaturatedNext(n: nat)
    ensures Saturated(Saturated(n, MAX_U64) + 1, MAX_U64) == Saturated(n + 1, MAX_U64)
  {
  }

  lemma {:induction false} CountersNext(host: Host, kind: Kind, now: nat, action: Action)
    ensures HostNext(host, kind, now, action).counters
         == if action.End? then host.counters.Counted(kind, action.finish) else host.counters
  {
  }

  lemma {:induction false} CountsFinished(
      counters: Counters, discovery: Ledger, content: Ledger, stub: Ledger, kind: Kind, finish: Finish)
    requires Counts(counters, discovery, content, stub)
    ensures
      Counts(counters.Counted(kind, finish),
             if kind.Discovery? then Tallied(discovery, finish) else discovery,
             if kind.ContentRefresh? then Tallied(content, finish) else content,
             if kind.StubRefresh? then Tallied(stub, finish) else stub)
  {
    SaturatedNext(discovery.completed);
    SaturatedNext(content.completed);
    SaturatedNext(stub.completed);
    SaturatedNext(content.cancelled + content.superseded);
    SaturatedNext(stub.cancelled + stub.superseded);
    SaturatedNext(discovery.failed + content.failed + stub.failed);
    hide Saturated;
  }

  lemma {:induction false} CountsNext(world: World, event: Event)
    requires Enabled(world, event) && Counts(world.host.counters, world.discovery, world.content, world.stub)
    ensures var next := Next(world, event);
      Counts(next.host.counters, next.discovery, next.content, next.stub)
  {
    hide HostNext, Saturated;
    CountersNext(world.host, event.kind, event.now, event.action);
    if event.action.End? {
      CountsFinished(
        world.host.counters, world.discovery, world.content, world.stub, event.kind, event.action.finish);
    }
  }

  lemma {:induction false} StatusNext(world: World, event: Event)
    requires Enabled(world, event) && (!world.host.AnyInFlight() ==> world.host.status != Running)
    ensures var host := Next(world, event).host; !host.AnyInFlight() ==> host.status != Running
  {
  }

  lemma {:induction false} NextIsSound(world: World, event: Event)
    requires Sound(world) && Enabled(world, event)
    ensures Sound(Next(world, event))
  {
    hide LaneSound, Counts, Possible, LaneNext, LedgerNext, HostNext;
    var next := Next(world, event);
    LaneIsNext(world.host, event.kind, event.now, event.action);
    StepKeepsLane(
      world.host.LaneOf(event.kind), world.LedgerOf(event.kind), world.clock, event.attempt, event.now, event.action);
    forall kind ensures LaneSound(next.host.LaneOf(kind), next.LedgerOf(kind), next.clock) {
      if kind != event.kind {
        LaneStaysSound(world.host.LaneOf(kind), world.LedgerOf(kind), world.clock, event.now);
      }
    }
    CountsNext(world, event);
    StatusNext(world, event);
  }

  lemma {:induction false} RunIsSound(world: World, events: seq<Event>)
    requires Sound(world) && IsRun(world, events)
    ensures Sound(Run(world, events))
    decreases |events|
  {
    if events != [] {
      hide Sound, Enabled, Next;
      NextIsSound(world, events[0]);
      RunIsSound(Next(world, events[0]), events[1..]);
    }
  }

  lemma {:induction false} EveryRunIsSound(enabled: bool, events: seq<Event>)
    requires IsRun(Start(enabled), events)
    ensures Sound(Run(Start(enabled), events))
  {
    RunIsSound(Start(enabled), events);
  }

  /**
    In every interleaving: a lane is in flight exactly while one attempt holds its grant, and never
    keeps a session meanwhile; and what was granted is completed, cancelled, superseded, failed or in flight.
    */
  lemma {:induction false} LaneProtocol(enabled: bool, events: seq<Event>, kind: Kind)
    requires IsRun(Start(enabled), events)
    ensures var world := Run(Start(enabled), events);
      var lane, ledger := world.host.LaneOf(kind), world.LedgerOf(kind);
      && (if lane.inFlight then |ledger.active| == 1 && lane.session.None? else ledger.active == map[])
      && ledger.granted
         == ledger.completed + ledger.cancelled + ledger.superseded + ledger.failed + |ledger.active|
      && lane.restartCount == Saturated(ledger.grantedWhileFailing, MAX_U64)
  {
    hide Start, Run, IsRun, ShowsProcess, BacksOff, Spaced;
    EveryRunIsSound(enabled, events);
    var world := Run(Start(enabled), events);
    assert LaneSound(world.host.LaneOf(kind), world.LedgerOf(kind), world.clock);
  }

  /** A session lent to an attempt is the process the lane shows, and no other attempt has one. */
  lemma {:induction false} OneSessionPerLane(enabled: bool, events: seq<Event>, kind: Kind, attempt: nat, other: nat)
    requires IsRun(Start(enabled), events)
    requires attempt in Run(Start(enabled), events).LedgerOf(kind).active
    requires Run(Start(enabled), events).LedgerOf(kind).active[attempt].Holding?
    ensures var world := Run(Start(enabled), events);
      && world.host.LaneOf(kind).activeProcessId
         == Some(world.LedgerOf(kind).active[attempt].session.processId)
      && (other in world.LedgerOf(kind).active ==> other == attempt)
  {
    hide Start, Run, IsRun, BacksOff, Spaced;
    EveryRunIsSound(enabled, events);
    var world := Run(Start(enabled), events);
    assert LaneSound(world.host.LaneOf(kind), world.LedgerOf(kind), world.clock);
    OnlyOne(world.LedgerOf(kind).active, attempt, Starting);
  }

  /** No grant before the backoff after the last of a streak of failures is over; from then on, every one. */
  lemma {:induction false} BackoffIsWaitedOut(enabled: bool, events: seq<Event>, kind: Kind, now: nat)
    requires IsRun(Start(enabled), events)
    requires !Run(Start(enabled), events).host.LaneOf(kind).inFlight
    ensures var world := Run(Start(enabled), events);
      var ledger := world.LedgerOf(kind);
      world.host.LaneOf(kind).Grants(now)
      <==> ledger.launches == [] || ledger.lastFailure + RestartBackoff(|ledger.launches|) <= now
  {
    hide Start, Run, IsRun, ShowsProcess, Spaced, RestartBackoff;
    EveryRunIsSound(enabled, events);
    var world := Run(Start(enabled), events);
    assert LaneSound(world.host.LaneOf(kind), world.LedgerOf(kind), world.clock);
  }

  /** The delays after the first so many failures. */
  function TotalBackoff(failures: nat): nat {
    if failures == 0 then 0 else TotalBackoff(failures - 1) + RestartBackoff(failures)
  }

  lemma {:induction false} TotalBackoffClosed(failures: nat)
    ensures failures >= 7 ==> TotalBackoff(failures) == (31_750 + 30_000 * (failures - 7)) * MILLISECOND
  {
    hide RestartBackoff;
    if failures > 7 {
      TotalBackoffClosed(failures - 1);
      BackoffCapped(failures);
    } else if failures == 7 {
      BackoffTable();
      assert TotalBackoff(3) == 1_750 * MILLISECOND && TotalBackoff(5) == 7_750 * MILLISECOND;
    }
  }

  lemma {:induction false} SpacedSpan(launches: seq<nat>, i: nat)
    requires Spaced(launches) && i < |launches|
    ensures launches[0] + TotalBackoff(i) <= launches[i]
  {
    if i > 0 {
      hide RestartBackoff;
      SpacedSpan(launches, i - 1);
      assert Waited(launches, i);
    }
  }

  /** The launches of a lane that always fails are spread over at least the sum of the delays between them. */
  lemma {:induction false} LaunchesAreSpread(enabled: bool, events: seq<Event>, kind: Kind)
    requires IsRun(Start(enabled), events)
    requires var ledger := Run(Start(enabled), events).LedgerOf(kind);
      ledger.completed + ledger.cancelled + ledger.superseded == 0 && ledger.granted > 0
    ensures var ledger := Run(Start(enabled), events).LedgerOf(kind);
      && |ledger.launches| == ledger.granted
      && ledger.launches[0] + TotalBackoff(ledger.granted - 1) <= ledger.launches[ledger.granted - 1]
  {
    hide Start, Run, IsRun, ShowsProcess, RestartBackoff;
    EveryRunIsSound(enabled, events);
    var world := Run(Start(enabled), events);
    assert LaneSound(world.host.LaneOf(kind), world.LedgerOf(kind), world.clock);
    SpacedSpan(world.LedgerOf(kind).launches, world.LedgerOf(kind).granted - 1);
  }

  /** The host shows "running" exactly while an attempt is in flight in some lane. */
  lemma {:induction false} RunningIsVisible(enabled: bool, events: seq<Event>, now: nat)
    requires IsRun(Start(enabled), events)
    ensures var world := Run(Start(enabled), events);
      world.host.VisibleStatus(now) == Running <==> exists kind :: world.LedgerOf(kind).active != map[]
  {
    hide Start, Run, IsRun, ShowsProcess, Spaced, BacksOff;
    EveryRunIsSound(enabled, events);
    var world := Run(Start(enabled), events);
    forall kind ensures world.host.LaneOf(kind).inFlight <==> world.LedgerOf(kind).active != map[] {
      assert LaneSound(world.host.LaneOf(kind), world.LedgerOf(kind), world.clock);
    }
    assert world.host.discovery == world.host.LaneOf(Discovery) && world.host.content == world.host.LaneOf(ContentRefresh)
      && world.host.stub == world.host.LaneOf(StubRefresh);
  }

  // ----- What the host shows when nothing runs -----

  /** How the last attempt to end did so, on whatever lane. */
  function LastEnd(events: seq<Event>, before: Option<Finish>): Option<Finish> {
    if events == [] then before
    else LastEnd(events[1..], if events[0].action.End? then Some(events[0].action.finish) else before)
  }

  function LastFailure(events: seq<Event>, before: Option<string>): Option<string> {
    if events == [] then before
    else
      LastFailure(
        events[1..],
        match events[0].action
        case End(Failure(error)) => Some(error)
        case _ => before)
  }

  ghost predicate Shows(host: Host, last: Option<Finish>, initial: Status) {
    host.status
    == if host.AnyInFlight() then Running
       else if last.None? then initial
       else if last.value.Failure? then Degraded
       else Idle
  }

  lemma {:induction false} StatusStep(world: World, event: Event, last: Option<Finish>, initial: Status)
    requires Enabled(world, event) && Shows(world.host, last, initial)
    ensures Shows(Next(world, event).host, LastEnd([event], last), initial)
    ensures Next(world, event).host.lastError == LastFailure([event], world.host.lastError)
  {
    assert [event][1..] == [];
  }

  lemma {:induction false} StatusRun(world: World, events: seq<Event>, last: Option<Finish>, initial: Status)
    requires IsRun(world, events) && Shows(world.host, last, initial)
    ensures Shows(Run(world, events).host, LastEnd(events, last), initial)
    ensures Run(world, events).host.lastError == LastFailure(events, world.host.lastError)
    decreases |events|
  {
    hide Shows, Enabled, Next;
    if events != [] {
      var event, next := events[0], Next(world, events[0]);
      StatusStep(world, event, last, initial);
      assert [event][1..] == [];
      assert LastEnd([event], last) == if event.action.End? then Some(event.action.finish) else last;
      StatusRun(next, events[1..], LastEnd([event], last), initial);
    }
  }

  /**
    While an attempt is in flight the host is running. When none is, it is degraded exactly if the last
    attempt to end failed; then it shows a backoff exactly if some lane is still to wait. The error it
    shows is that of the last failure.
    */
  lemma {:induction false} StatusOverRuns(enabled: bool, events: seq<Event>, now: nat)
    requires IsRun(Start(enabled), events)
    ensures var host, last := Run(Start(enabled), events).host, LastEnd(events, None);
      && (host.status == Running <==> exists kind :: host.LaneOf(kind).inFlight)
      && (host.status == Degraded <==>
            (forall kind :: !host.LaneOf(kind).inFlight) && last.Some? && last.value.Failure?)
      && (host.status == Disabled <==>
            (forall kind :: !host.LaneOf(kind).inFlight) && last.None? && !enabled)
      && host.status != Backoff && host.lastError == LastFailure(events, None)
      && (if host.status == Running then host.VisibleStatus(now) == Running
          else if exists kind ::
            host.LaneOf(kind).retryNotBefore.Some? && now < host.LaneOf(kind).retryNotBefore.value
          then host.VisibleStatus(now) == Backoff
          else host.VisibleStatus(now) == host.status)
  {
    StatusRun(Start(enabled), events, None, if enabled then Idle else Disabled);
    hide Run, IsRun, LastEnd, LastFailure;
    ByLane(Run(Start(enabled), events).host);
  }

  lemma {:induction false} ByLane(host: Host)
    ensures host.discovery == host.LaneOf(Discovery) && host.content == host.LaneOf(ContentRefresh)
    ensures host.stub == host.LaneOf(StubRefresh)
    ensures host.AnyInFlight() <==> exists kind :: host.LaneOf(kind).inFlight
  {
  }
}
