/**
 * The VPN service as steps on the main thread. A step runs from one suspension point to the next:
 * loading the profile, joining the connecting job, and waiting for the children of the stopping scope.
 */
module Lifecycle {
  import opened Bytes
  import opened Engine

  datatype State = Idle | Connecting | Connected | Stopping | Stopped

  predicate CanStop(s: State) {
    s.Connecting? || s.Connected?
  }

  /** The connecting coroutine, suspended in `Core.currentProfile()`. */
  datatype Waiting = Waiting(id: nat, cancelled: bool)

  /** The stopping coroutine: joining the connecting job, or waiting for the child that drops the network listener. */
  datatype Stopper = NoStopper | Joining(restart: bool, job: nat) | Scoped(restart: bool, childPending: bool)

  datatype Request = StartService | StopSelf

  /** How far `preInit` and `startProcesses` get. */
  datatype Boot =
    | NotPrepared       // prepare() wants the user's consent
    | ListenerRejected  // registerNetworkCallback throws
    | NotEstablished    // establish() gives no descriptor
    | ConfigFailed      // the home directory cannot be written
    | ParseFailed       // hub.Parse rejects the configuration
    | ForwarderRefused  // tun2socks does not start
    | Booted

  datatype Event =
    | StartCommand
    | ProfileLoaded(boot: Option<Boot>)  // None: no profile is selected
    | CancelDelivered
    | StopRequested(restart: bool)
    | ReloadRequested
    | JoinDone
    | ListenerStopped
    | ScopeDone
    | ForwarderExited

  datatype Snapshot = Snapshot(
    state: State, instance: bool, receiver: bool, notification: bool,
    job: Option<nat>, live: Option<Waiting>, launched: nat, stopper: Stopper,
    conn: bool, active: bool, callback: bool,
    native: Machine, requests: seq<Request>)

  const INITIAL :=
    Snapshot(Stopped, false, false, false, None, None, 0, NoStopper, false, false, false, Machine(OFF, Nothing), [])

  // ---- the steps -----------------------------------------------------------------

  function Started(s: Snapshot): Snapshot {
    if !s.state.Stopped? then s
    else
      s.(state := Connecting, job := Some(s.launched), live := Some(Waiting(s.launched, false)),
         launched := s.launched + 1)
  }

  /** `MihomoInstance.stop`: the forwarder first, then the engine, then the protect reference. */
  function InstanceStopped(m: Machine): Machine {
    Do(EngineStopped(Do(m, ForwarderDown)), ProtectCleared)
  }

  function Torn(m: Machine, instance: bool, conn: bool): Machine {
    var stopped := if instance then InstanceStopped(m) else m;
    if conn then Do(stopped, TunDown) else stopped
  }

  /** What the stopping coroutine does between the join and the end of its scope's body. */
  function Killed(s: Snapshot, restart: bool): Snapshot {
    s.(instance := false, active := false, conn := false, receiver := false, notification := false,
       native := Torn(s.native, s.instance, s.conn), stopper := Scoped(restart, true))
  }

  predicate JobRuns(s: Snapshot) {
    s.live.Some? && s.job == Some(s.live.value.id)
  }

  function Cancelled(s: Snapshot, restart: bool, id: nat): Snapshot {
    s.(live := Some(Waiting(id, true)), stopper := Joining(restart, id))
  }

  /** `stopRunner`: joins a job that still runs, and goes on at once past one that is null or already over. */
  function StopRun(s: Snapshot, restart: bool): Snapshot {
    if s.state.Stopping? then s
    else if JobRuns(s) then Cancelled(s.(state := Stopping), restart, s.live.value.id)
    else Killed(s.(state := Stopping), restart)
  }

  /** A start succeeds if nothing fails and neither the engine nor the forwarder is up already. */
  predicate Starts(m: Machine, b: Boot) {
    b.Booted? && !m.world.engine && !m.world.forwarder
  }

  /** The descriptor first, then the protect reference, then the engine, then the forwarder. */
  function Brought(m: Machine, b: Boot): Machine {
    match b
    case NotPrepared => m
    case ListenerRejected => m
    case NotEstablished => m
    case ConfigFailed => Do(m, TunUp)
    case ParseFailed => EngineStarted(Do(Do(m, TunUp), ProtectSet), false)
    case ForwarderRefused => EngineStarted(Do(Do(m, TunUp), ProtectSet), true)
    case Booted =>
      var started := EngineStarted(Do(Do(m, TunUp), ProtectSet), true);
      if Starts(m, b) then Do(started, ForwarderUp) else started
  }

  function BootedTo(s: Snapshot, b: Boot): Snapshot {
    s.(callback := s.callback || !b.NotPrepared?,
       active := s.active || !(b.NotPrepared? || b.ListenerRejected?),
       conn := s.conn || b.ConfigFailed? || b.ParseFailed? || b.ForwarderRefused? || b.Booted?,
       native := Brought(s.native, b))
  }

  function Ended(s: Snapshot): Snapshot {
    s.(job := None, live := None)
  }

  /** The connecting coroutine resumed; the early return leaves `connectingJob` set, the `finally` clears it. */
  function Resumed(s: Snapshot, boot: Option<Boot>): Snapshot {
    match boot
    case None => StopRun(s.(notification := true), false).(live := None)
    case Some(b) =>
      var up := BootedTo(s.(instance := true, receiver := true, notification := true), b);
      Ended(if Starts(s.native, b) then up.(state := Connected) else StopRun(up, false))
  }

  function Reloaded(s: Snapshot): Snapshot {
    if s.state.Stopped? then s.(requests := s.requests + [StartService])
    else if CanStop(s.state) then StopRun(s, true) else s
  }

  function ListenerDropped(s: Snapshot, restart: bool): Snapshot {
    s.(callback := false, stopper := Scoped(restart, false))
  }

  function Finished(s: Snapshot, restart: bool): Snapshot {
    s.(state := Stopped, stopper := NoStopper, requests := s.requests + [if restart then StartService else StopSelf])
  }

  /** An event that nothing waits for changes nothing. */
  predicate Awaited(live: Option<Waiting>, stopper: Stopper, e: Event) {
    match e
    case ProfileLoaded(_) => live.Some? && !live.value.cancelled
    case CancelDelivered => live.Some? && live.value.cancelled
    case JoinDone => stopper.Joining? && (live.None? || live.value.id != stopper.job)
    case ListenerStopped => stopper.Scoped? && stopper.childPending
    case ScopeDone => stopper.Scoped? && !stopper.childPending
    case _ => true
  }

  function Step(s: Snapshot, e: Event): Snapshot {
    if !Awaited(s.live, s.stopper, e) then s else
    match e
    case StartCommand => Started(s)
    case ProfileLoaded(boot) => Resumed(s, boot)
    case CancelDelivered => s.(live := None)
    case StopRequested(restart) => StopRun(s, restart)
    case ReloadRequested => Reloaded(s)
    case JoinDone => Killed(s, s.stopper.restart)
    case ListenerStopped => ListenerDropped(s, s.stopper.restart)
    case ScopeDone => Finished(s, s.stopper.restart)
    case ForwarderExited => s.(native := Do(s.native, ForwarderDown))
  }

  function Run(s: Snapshot, events: seq<Event>): Snapshot
    decreases |events|
  {
    if events == [] then s else Run(Step(s, events[0]), events[1..])
  }

  // ---- the invariant -------------------------------------------------------------

  predicate Released(s: Snapshot) {
    && !s.instance && !s.receiver && !s.notification && !s.conn && !s.active && !s.callback
    && s.native.world == OFF
  }

  predicate Serving(s: Snapshot) {
    && s.instance && s.receiver && s.notification && s.conn && s.active && s.callback
    && var w := s.native.world; w.engine && w.hook && w.protect && w.tun
  }

  /** What is held natively is reachable from the fields that `killProcesses` looks at. */
  predicate Coherent(s: Snapshot) {
    var w := s.native.world;
    && w.tun == s.conn && (s.conn ==> s.instance)
    && (w.protect ==> w.tun) && (w.hook ==> w.protect) && (w.engine ==> w.hook) && (w.forwarder ==> w.engine)
  }

  predicate Inv(s: Snapshot) {
    && Faithful(s.native) && Coherent(s)
    && (s.stopper.NoStopper? <==> !s.state.Stopping?)
    && match s.state
       case Idle => false
       case Stopped => Released(s) && s.live.None?
       case Connecting => Released(s) && s.live.Some? && !s.live.value.cancelled && s.job == Some(s.live.value.id)
       case Connected => Serving(s) && s.live.None? && s.job.None?
       case Stopping =>
         if s.stopper.Joining?
         then s.live.Some? ==> s.live.value == Waiting(s.stopper.job, true) && Released(s)
         else && s.live.None? && !s.instance && !s.receiver && !s.notification && !s.conn && !s.active
              && s.native.world == OFF && (!s.stopper.childPending ==> !s.callback)
  }

  lemma BootOrdered(m: Machine, b: Boot)
    requires Faithful(m) && m.world == OFF
    ensures Faithful(Brought(m, b))
    ensures Brought(m, b).world
            == match b
               case ConfigFailed => World(true, false, false, false, false)
               case ParseFailed => World(true, true, true, false, false)
               case ForwarderRefused => World(true, true, true, true, false)
               case Booted => World(true, true, true, true, true)
               case _ => OFF
  {
    var hooked := Do(Do(Do(m, TunUp), ProtectSet), HookInstalled);
    assert Faithful(hooked) && hooked.world == World(true, true, true, false, false);
    var up := Do(Do(hooked, ConfigParsed), EngineUp);
    assert Faithful(up) && up.world == World(true, true, true, true, false);
  }

  lemma KillReleases(s: Snapshot)
    requires Faithful(s.native) && Coherent(s)
    ensures var m := Torn(s.native, s.instance, s.conn); Faithful(m) && m.world == OFF
  {
    if s.instance {
      var quiet := Do(s.native, ForwarderDown);
      assert Faithful(quiet);
      var drained := EngineStopped(quiet);
      assert Faithful(drained) && drained.world == s.native.world.(forwarder := false, engine := false, hook := false);
    }
  }

  lemma KillKeepsInv(s: Snapshot, restart: bool)
    requires Faithful(s.native) && Coherent(s) && s.state.Stopping? && s.live.None?
    ensures Inv(Killed(s, restart))
  {
    KillReleases(s);
  }

  lemma StopKeepsInv(s: Snapshot, restart: bool)
    requires Inv(s)
    ensures Inv(StopRun(s, restart))
  {
    if !s.state.Stopping? && !s.state.Connecting? {
      KillKeepsInv(s.(state := Stopping), restart);
    }
  }

  /** A boot that stops short leaves the coroutine gone and the stopper to clean up. */
  lemma ResumeKeepsInv(s: Snapshot, boot: Option<Boot>)
    requires Inv(s) && s.state.Connecting?
    ensures Inv(Resumed(s, boot))
  {
    if boot.Some? {
      BootOrdered(s.native, boot.value);
    }
  }

  lemma StepKeepsInv(s: Snapshot, e: Event)
    requires Inv(s)
    ensures Inv(Step(s, e))
  {
    match e
    case ProfileLoaded(boot) =>
      if Awaited(s.live, s.stopper, e) {
        ResumeKeepsInv(s, boot);
      }
    case StopRequested(restart) => StopKeepsInv(s, restart);
    case ReloadRequested => StopKeepsInv(s, true);
    case JoinDone =>
      if Awaited(s.live, s.stopper, e) {
        KillKeepsInv(s, s.stopper.restart);
      }
    case _ =>
  }

  lemma {:induction false} RunKeepsInv(s: Snapshot, events: seq<Event>)
    requires Inv(s)
    ensures Inv(Run(s, events))
    decreases |events|
  {
    if events != [] {
      StepKeepsInv(s, events[0]);
      RunKeepsInv(Step(s, events[0]), events[1..]);
    }
  }

  // ---- over every run ------------------------------------------------------------

  /** What each state promises, whatever commands, failures and cancellations came before. */
  lemma StateMeaning(events: seq<Event>)
    ensures var s := Run(INITIAL, events);
            && (s.state.Stopped? || s.state.Connecting? ==> Released(s))
            && (s.state.Connected? ==> Serving(s))
            && (s.live.Some? && !s.live.value.cancelled <==> s.state.Connecting?)
            && (s.stopper.NoStopper? <==> !s.state.Stopping?)
  {
    RunKeepsInv(INITIAL, events);
  }

  /** At every moment of every run: the engine is never up, nor parsing its configuration, without protection. */
  lemma ProtectedThroughout(events: seq<Event>, p: Trace)
    requires Earlier(p, Run(INITIAL, events).native.trace)
    ensures Safe(Replay(p)) && (p.Then? ==> Allowed(Replay(p.before), p.effect))
  {
    RunKeepsInv(INITIAL, events);
    OrderedIsSafe(Run(INITIAL, events).native.trace, p);
  }

  predicate Edge(from: State, to: State) {
    match from
    case Idle => false
    case Stopped => to.Stopped? || to.Connecting? || to.Stopping?
    case Connecting => to.Connecting? || to.Connected? || to.Stopping?
    case Connected => to.Connected? || to.Stopping?
    case Stopping => to.Stopping? || to.Stopped?
  }

  /** Connected is entered from Connecting alone, Connecting from Stopped alone, and Stopping is left for Stopped alone. */
  lemma EveryStepIsAnEdge(events: seq<Event>, e: Event)
    ensures Edge(Run(INITIAL, events).state, Step(Run(INITIAL, events), e).state)
  {
    RunKeepsInv(INITIAL, events);
  }

  lemma {:induction false} RunSnoc(s: Snapshot, events: seq<Event>, e: Event)
    ensures Run(s, events + [e]) == Step(Run(s, events), e)
    decreases |events|
  {
    if events == [] {
      assert [e][1..] == [];
    } else {
      RunSnoc(Step(s, events[0]), events[1..], e);
      assert (events + [e])[1..] == events[1..] + [e];
    }
  }

  /** The forwarding task has ended since the service was last Connecting. */
  predicate Dropped(events: seq<Event>)
    decreases |events|
  {
    if events == [] then false
    else
      var n := |events| - 1;
      events[n].ForwarderExited? || (!Run(INITIAL, events[..n]).state.Connecting? && Dropped(events[..n]))
  }

  /** A start ends Connected only with the forwarder up. */
  lemma ForwarderStarts(s: Snapshot, e: Event)
    requires Inv(s) && !s.state.Connected? && Step(s, e).state.Connected?
    ensures s.state.Connecting? && !e.ForwarderExited? && Step(s, e).native.world.forwarder
  {
    if s.state.Connecting? && e.ProfileLoaded? && e.boot.Some? {
      BootOrdered(s.native, e.boot.value);
    }
  }

  lemma ForwarderStays(s: Snapshot, e: Event)
    requires Inv(s) && s.state.Connected? && Step(s, e).state.Connected?
    ensures Step(s, e).native.world.forwarder <==> s.native.world.forwarder && !e.ForwarderExited?
  {
  }

  /** In Connected the forwarder runs if and only if its task has not ended since the start: nothing restarts it. */
  lemma {:induction false} ForwarderRunsIff(events: seq<Event>)
    requires Run(INITIAL, events).state.Connected?
    ensures Run(INITIAL, events).native.world.forwarder <==> !Dropped(events)
    decreases |events|
  {
    var n := |events| - 1;
    var before := Run(INITIAL, events[..n]);
    assert events[..n] + [events[n]] == events;
    RunSnoc(INITIAL, events[..n], events[n]);
    RunKeepsInv(INITIAL, events[..n]);
    if before.state.Connected? {
      ForwarderStays(before, events[n]);
      ForwarderRunsIff(events[..n]);
    } else {
      ForwarderStarts(before, events[n]);
    }
  }

  /** The failing case is reachable: from any Connected state, staying Connected. */
  lemma ConnectedWithoutForwarder(events: seq<Event>)
    requires Run(INITIAL, events).state.Connected?
    ensures var later := events + [ForwarderExited];
            Run(INITIAL, later).state.Connected? && Serving(Run(INITIAL, later))
            && Dropped(later) && !Run(INITIAL, later).native.world.forwarder
  {
    RunKeepsInv(INITIAL, events);
    RunSnoc(INITIAL, events, ForwarderExited);
    ForwarderRunsIff(events + [ForwarderExited]);
  }

  // ---- every stop comes to an end --------------------------------------------------

  /** The event a stopping service waits for. */
  function Due(s: Snapshot): Event
    requires s.state.Stopping?
  {
    if s.stopper.Joining? then (if s.live.Some? then CancelDelivered else JoinDone)
    else if s.stopper.Scoped? && s.stopper.childPending then ListenerStopped
    else ScopeDone
  }

  function Remaining(s: Snapshot): nat {
    if !s.state.Stopping? then 0
    else if s.stopper.Joining? then (if s.live.Some? then 4 else 3)
    else if s.stopper.Scoped? && s.stopper.childPending then 2
    else 1
  }

  /** How many of the events were the one waited for when they came. */
  function DueCount(s: Snapshot, events: seq<Event>): nat
    decreases |events|
  {
    if events == [] || !s.state.Stopping? then 0
    else (if events[0] == Due(s) then 1 else 0) + DueCount(Step(s, events[0]), events[1..])
  }

  function FirstStopped(s: Snapshot, events: seq<Event>): Option<Snapshot>
    decreases |events|
  {
    if s.state.Stopped? then Some(s)
    else if events == [] then None
    else FirstStopped(Step(s, events[0]), events[1..])
  }

  function Farewell(s: Snapshot): Request {
    if !s.stopper.NoStopper? && s.stopper.restart then StartService else StopSelf
  }

  lemma StoppingStep(s: Snapshot, e: Event)
    requires Inv(s) && s.state.Stopping?
    ensures var t := Step(s, e);
            && Remaining(t) == (if e == Due(s) then Remaining(s) - 1 else Remaining(s))
            && (if t.state.Stopped? then t.requests == s.requests + [Farewell(s)]
                else t.state.Stopping? && Farewell(t) == Farewell(s) && t.requests == s.requests)
  {
  }

  /**
   * However other commands are interleaved, a stop ends after at most four due events, everything
   * released, with the one request it was asked for: a restart, or to end the service.
   */
  lemma {:induction false} StopEnds(s: Snapshot, events: seq<Event>)
    requires Inv(s) && s.state.Stopping? && DueCount(s, events) >= Remaining(s)
    ensures var t := FirstStopped(s, events);
            t.Some? && Released(t.value) && t.value.requests == s.requests + [Farewell(s)]
    decreases |events|
  {
    var t := Step(s, events[0]);
    StoppingStep(s, events[0]);
    StepKeepsInv(s, events[0]);
    if t.state.Stopping? {
      StopEnds(t, events[1..]);
    }
  }

  /** So does every stop of every run: after an external stop, a failed start, or a start without a profile. */
  lemma EveryStopEnds(before: seq<Event>, events: seq<Event>)
    requires var s := Run(INITIAL, before); s.state.Stopping? && DueCount(s, events) >= Remaining(s)
    ensures var s := Run(INITIAL, before); var t := FirstStopped(s, events);
            t.Some? && Released(t.value) && t.value.requests == s.requests + [Farewell(s)]
  {
    RunKeepsInv(INITIAL, before);
    StopEnds(Run(INITIAL, before), events);
  }

  // ---- what a run asks of the system -----------------------------------------------

  /**
   A stop asked for in any state but Stopping, and a reload in Connecting or Connected, end in
   Stopped with everything released and one request: to start again for a reload or a stop
   with restart, to end the service otherwise. Nothing that comes in between changes that.
  */
  lemma StopEndsAsAsked(before: seq<Event>, e: Event, events: seq<Event>)
    requires var s := Run(INITIAL, before);
             || (e.StopRequested? && !s.state.Stopping?)
             || (e.ReloadRequested? && (s.state.Connecting? || s.state.Connected?))
    requires var t := Step(Run(INITIAL, before), e); DueCount(t, events) >= Remaining(t)
    ensures var s := Run(INITIAL, before); var t := FirstStopped(Step(s, e), events);
            && t.Some? && Released(t.value)
            && t.value.requests
               == s.requests + [if e.ReloadRequested? || e.restart then StartService else StopSelf]
  {
    var s := Run(INITIAL, before);
    RunKeepsInv(INITIAL, before);
    StepKeepsInv(s, e);
    StopEnds(Step(s, e), events);
  }

  /** A start that finds no profile, or fails at any point, ends the service. */
  lemma FailedStartEndsService(before: seq<Event>, boot: Option<Boot>, events: seq<Event>)
    requires Run(INITIAL, before).state.Connecting? && boot != Some(Booted)
    requires var t := Step(Run(INITIAL, before), ProfileLoaded(boot)); DueCount(t, events) >= Remaining(t)
    ensures var s := Run(INITIAL, before); var t := FirstStopped(Step(s, ProfileLoaded(boot)), events);
            t.Some? && Released(t.value) && t.value.requests == s.requests + [StopSelf]
  {
    var s := Run(INITIAL, before);
    RunKeepsInv(INITIAL, before);
    StepKeepsInv(s, ProfileLoaded(boot));
    StopEnds(Step(s, ProfileLoaded(boot)), events);
  }

  /** A reload in Stopped only asks for a start. */
  lemma ReloadStartsStopped(before: seq<Event>)
    requires Run(INITIAL, before).state.Stopped?
    ensures var s := Run(INITIAL, before);
            Run(INITIAL, before + [ReloadRequested]) == s.(requests := s.requests + [StartService])
  {
    RunSnoc(INITIAL, before, ReloadRequested);
  }

  lemma RunTwo(s: Snapshot, a: Event, b: Event)
    ensures Run(s, [a, b]) == Step(Step(s, a), b)
  {
    assert [a, b][1..] == [b] && [b][1..] == [];
    assert Run(Step(s, a), [b]) == Run(Step(Step(s, a), b), []);
  }

  lemma {:induction false} RunConcat(s: Snapshot, a: seq<Event>, b: seq<Event>)
    ensures Run(s, a + b) == Run(Run(s, a), b)
    decreases |a|
  {
    if a == [] {
      assert a + b == b;
    } else {
      RunConcat(Step(s, a[0]), a[1..], b);
      assert (a + b)[1..] == a[1..] + b;
    }
  }

  /** From every reachable Stopped state a start that goes well reaches Connected. */
  lemma StartReachesConnected(before: seq<Event>)
    requires Run(INITIAL, before).state.Stopped?
    ensures var s := Run(INITIAL, before); var t := Run(s, [StartCommand, ProfileLoaded(Some(Booted))]);
            t.state.Connected? && Serving(t) && t.native.world.forwarder && t.requests == s.requests
  {
    var s := Run(INITIAL, before);
    RunKeepsInv(INITIAL, before);
    RunTwo(s, StartCommand, ProfileLoaded(Some(Booted)));
    StepKeepsInv(s, StartCommand);
    var connecting := Step(s, StartCommand);
    BootOrdered(connecting.native, Booted);
    StepKeepsInv(connecting, ProfileLoaded(Some(Booted)));
  }

  lemma ReloadSteps(s: Snapshot)
    requires Inv(s) && s.state.Connected?
    ensures var stopping := Step(s, ReloadRequested); var down := Step(Step(stopping, ListenerStopped), ScopeDone);
            Inv(down) && down.state.Stopped? && down.requests == s.requests + [StartService]
  {
    var stopping := Step(s, ReloadRequested);
    StepKeepsInv(s, ReloadRequested);
    StoppingStep(stopping, ListenerStopped);
    StepKeepsInv(stopping, ListenerStopped);
    var dropped := Step(stopping, ListenerStopped);
    StoppingStep(dropped, ScopeDone);
    StepKeepsInv(dropped, ScopeDone);
  }

  /** The start that a reload asks for makes the service connected again. */
  lemma ReloadReconnects(before: seq<Event>)
    requires Run(INITIAL, before).state.Connected?
    ensures var s := Run(INITIAL, before); var down := Run(INITIAL, before + [ReloadRequested] + [ListenerStopped, ScopeDone]);
            && down.state.Stopped? && Released(down) && down.requests == s.requests + [StartService]
            && Run(down, [StartCommand, ProfileLoaded(Some(Booted))]).state.Connected?
  {
    var s := Run(INITIAL, before);
    RunKeepsInv(INITIAL, before);
    ReloadSteps(s);
    RunSnoc(INITIAL, before, ReloadRequested);
    RunConcat(INITIAL, before + [ReloadRequested], [ListenerStopped, ScopeDone]);
    RunTwo(Step(s, ReloadRequested), ListenerStopped, ScopeDone);
    StartReachesConnected(before + [ReloadRequested] + [ListenerStopped, ScopeDone]);
  }

  // ---- the service ---------------------------------------------------------------

  class VpnService {
    const native: Native
    // BaseService.Data
    var state: State
    var mihomoInstance: bool
    var notification: bool
    var closeReceiverRegistered: bool
    var connectingJob: Option<nat>
    // VpnService
    var conn: bool
    var active: bool
    // DefaultNetworkListener
    var callback: bool
    // the coroutines suspended on the main thread, and what was asked of the system
    var live: Option<Waiting>
    var launched: nat
    var stopper: Stopper
    var requests: seq<Request>

    ghost function Now(): Snapshot
      reads this, native
    {
      Snapshot(state, mihomoInstance, closeReceiverRegistered, notification, connectingJob, live, launched, stopper,
               conn, active, callback, native.Now(), requests)
    }

    ghost predicate Valid()
      reads this, native
    {
      Inv(Now())
    }

    constructor ()
      ensures Valid() && Now() == INITIAL && fresh(native)
    {
      native := new Native();
      state, mihomoInstance, notification, closeReceiverRegistered, connectingJob := Stopped, false, false, false, None;
      conn, active, callback := false, false, false;
      live, launched, stopper, requests := None, 0, NoStopper, [];
    }

    method OnStartCommand()
      modifies `state, `live, `connectingJob, `launched
      ensures Now() == Started(old(Now()))
    {
      if !state.Stopped? {
        return;
      }
      state := Connecting;
      live := Some(Waiting(launched, false));
      connectingJob := Some(launched);
      launched := launched + 1;
    }

    method Announce()
      modifies `mihomoInstance, `closeReceiverRegistered, `notification
      ensures Now() == old(Now()).(instance := true, receiver := true, notification := true)
    {
      mihomoInstance := true;
      if !closeReceiverRegistered {
        closeReceiverRegistered := true;
      }
      notification := true;
    }

    /** The `finally` clause, after which the coroutine is over. */
    method EndJob()
      modifies `connectingJob, `live
      ensures Now() == Ended(old(Now()))
    {
      connectingJob := None;
      live := None;
    }

    /** False stands for the exception that ends the start-up; so it does below. */
    method PreInit(b: Boot) returns (ok: bool)
      modifies `callback
      ensures ok == !(b.NotPrepared? || b.ListenerRejected?) && callback == (old(callback) || !b.NotPrepared?)
    {
      if b.NotPrepared? {
        return false;
      }
      callback := true;
      ok := !b.ListenerRejected?;
    }

    method StartVpn(established: bool) returns (ok: bool)
      modifies `active, `conn, native
      ensures ok == established && active && conn == (old(conn) || established)
      ensures native.Now() == if established then Do(old(native.Now()), TunUp) else old(native.Now())
    {
      active := true;
      if !established {
        return false;
      }
      native.SetTun(true);
      conn := true;
      ok := true;
    }

    /** `MihomoInstance.start`: the protect reference is set before the engine starts. */
    method StartInstance(writable: bool, parses: bool) returns (ok: bool)
      modifies native
      ensures ok == (writable && parses && !old(native.engineRunning))
      ensures native.Now()
              == if writable then EngineStarted(Do(old(native.Now()), ProtectSet), parses) else old(native.Now())
    {
      if !writable {
        return false;
      }
      native.SetProtect(true);
      ok := native.StartEngine(parses);
    }

    method StartProcesses(b: Boot) returns (up: bool)
      requires !b.NotPrepared? && !b.ListenerRejected?
      modifies `active, `conn, native
      ensures up == Starts(old(native.Now()), b) && active && conn == (old(conn) || !b.NotEstablished?)
      ensures native.Now() == Brought(old(native.Now()), b)
    {
      up := StartVpn(!b.NotEstablished?);
      if !up {
        return;
      }
      up := StartInstance(!b.ConfigFailed?, !b.ParseFailed?);
      if !up {
        return;
      }
      up := native.StartTun2Socks(!b.ForwarderRefused?);
    }

    method StartUp(b: Boot) returns (up: bool)
      modifies `callback, `active, `conn, native
      ensures up == Starts(old(native.Now()), b) && Now() == BootedTo(old(Now()), b)
    {
      up := PreInit(b);
      if up {
        up := StartProcesses(b);
      }
    }

    /** `cancelAndJoin` on a job that still runs. */
    method CancelJob(restart: bool, id: nat)
      modifies `live, `stopper
      ensures Now() == Cancelled(old(Now()), restart, id)
    {
      live := Some(Waiting(id, true));
      stopper := Joining(restart, id);
    }

    /** `MihomoInstance.stop` */
    method StopInstance()
      modifies native
      ensures native.Now() == InstanceStopped(old(native.Now()))
    {
      native.StopTun2Socks();
      native.StopEngine();
      native.SetProtect(false);
    }

    method KillProcesses()
      modifies `mihomoInstance, `active, `conn, native
      ensures !mihomoInstance && !active && !conn
      ensures native.Now() == Torn(old(native.Now()), old(mihomoInstance), old(conn))
    {
      if mihomoInstance {
        StopInstance();
        mihomoInstance := false;
      }
      active := false;
      if conn {
        native.SetTun(false);
        conn := false;
      }
    }

    /** The body of the stopping scope. */
    method RunScope(restart: bool)
      modifies this, native
      ensures Now() == Killed(old(Now()), restart)
    {
      KillProcesses();
      stopper := Scoped(restart, true);
      if closeReceiverRegistered {
        closeReceiverRegistered := false;
      }
      notification := false;
    }

    /** Launches the stopping coroutine, which runs until it has to wait for the connecting job or its scope. */
    method StopRunner(restart: bool)
      modifies this, native
      ensures Now() == StopRun(old(Now()), restart)
    {
      if state.Stopping? {
        return;
      }
      state := Stopping;
      if connectingJob.Some? && live.Some? && connectingJob.value == live.value.id {
        CancelJob(restart, live.value.id);
      } else {
        RunScope(restart);
      }
    }

    /** The connecting coroutine, from the profile's arrival to its end. */
    method ProfileArrives(boot: Option<Boot>)
      modifies this, native
      ensures Now() == Resumed(old(Now()), boot)
    {
      match boot
      case None =>
        notification := true;
        StopRunner(false);
        live := None;
      case Some(b) =>
        Announce();
        var up := StartUp(b);
        if up {
          state := Connected;
        } else {
          StopRunner(false);
        }
        EndJob();
    }

    /** The scope's child: `DefaultNetworkListener.stop`. */
    method StopListener(restart: bool)
      modifies `callback, `stopper
      ensures Now() == ListenerDropped(old(Now()), restart)
    {
      callback := false;
      stopper := Scoped(restart, false);
    }

    /** The stopping coroutine after its scope. */
    method Finish(restart: bool)
      modifies `state, `stopper, `requests
      ensures Now() == Finished(old(Now()), restart)
    {
      state := Stopped;
      requests := requests + [if restart then StartService else StopSelf];
      stopper := NoStopper;
    }

    method ForceLoad()
      modifies this, native
      ensures Now() == Reloaded(old(Now()))
    {
      if state.Stopped? {
        requests := requests + [StartService];
      } else if CanStop(state) {
        StopRunner(true);
      }
    }

    /** The main thread: each event runs the piece of code that waits for it, up to its next suspension point. */
    method Dispatch(e: Event)
      requires Valid()
      modifies this, native
      ensures Valid() && Now() == Step(old(Now()), e)
    {
      StepKeepsInv(Now(), e);
      if Awaited(live, stopper, e) {
        match e
        case StartCommand => OnStartCommand();
        case ProfileLoaded(boot) => ProfileArrives(boot);
        case CancelDelivered => live := None;
        case StopRequested(restart) => StopRunner(restart);
        case ReloadRequested => ForceLoad();
        case JoinDone => RunScope(stopper.restart);
        case ListenerStopped => StopListener(stopper.restart);
        case ScopeDone => Finish(stopper.restart);
        case ForwarderExited => native.StopTun2Socks();
      }
    }
  }
}
