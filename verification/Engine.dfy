/** The native side of the VPN: the Go engine, its protect hook, the VpnService reference and the forwarder flag. */
module Engine {
  /** What happens to a native resource. */
  datatype Effect =
    | TunUp | TunDown
    | ProtectSet | ProtectCleared
    | HookInstalled | HookCleared
    | ConfigParsed          // hub.Parse: may dial out to fetch providers
    | EngineUp | EngineDown
    | ForwarderUp | ForwarderDown

  datatype World = World(tun: bool, protect: bool, hook: bool, engine: bool, forwarder: bool)

  const OFF := World(false, false, false, false, false)

  function After(w: World, e: Effect): World {
    match e
    case TunUp => w.(tun := true)
    case TunDown => w.(tun := false)
    case ProtectSet => w.(protect := true)
    case ProtectCleared => w.(protect := false)
    case HookInstalled => w.(hook := true)
    case HookCleared => w.(hook := false)
    case ConfigParsed => w
    case EngineUp => w.(engine := true)
    case EngineDown => w.(engine := false)
    case ForwarderUp => w.(forwarder := true)
    case ForwarderDown => w.(forwarder := false)
  }

  /** Effects in the order they happen, the latest outermost. */
  datatype Trace = Nothing | Then(before: Trace, effect: Effect)

  function Replay(t: Trace): World {
    match t
    case Nothing => OFF
    case Then(before, e) => After(Replay(before), e)
  }

  /** The design's order: nothing is taken twice, the engine never dials unprotected, teardown mirrors start-up. */
  predicate Allowed(w: World, e: Effect) {
    match e
    case TunUp => !w.tun
    case TunDown => w.tun && !w.protect && !w.engine && !w.forwarder
    case ProtectSet => w.tun && !w.protect && !w.engine
    case ProtectCleared => !w.engine && !w.hook
    case HookInstalled => w.tun && w.protect && !w.engine
    case HookCleared => !w.engine
    case ConfigParsed => w.tun && w.protect && w.hook && !w.engine
    case EngineUp => w.tun && w.protect && w.hook && !w.engine
    case EngineDown => w.engine && !w.forwarder
    case ForwarderUp => w.tun && w.engine && !w.forwarder
    case ForwarderDown => true
  }

  predicate Ordered(t: Trace) {
    t.Then? ==> Ordered(t.before) && Allowed(Replay(t.before), t.effect)
  }

  /** `p` is the trace at some earlier moment of `t`, or `t` itself. */
  predicate Earlier(p: Trace, t: Trace) {
    p == t || (t.Then? && Earlier(p, t.before))
  }

  /** Sockets of a running engine are protected, and packets are forwarded only into a running engine. */
  predicate Safe(w: World) {
    (w.engine ==> w.protect && w.hook && w.tun) && (w.forwarder ==> w.engine)
  }

  /** In an ordered trace every moment is safe. */
  lemma {:induction false} OrderedIsSafe(t: Trace, p: Trace)
    requires Ordered(t) && Earlier(p, t)
    ensures Safe(Replay(p)) && Ordered(p)
  {
    if p != t {
      OrderedIsSafe(t.before, p);
    } else if t.Then? {
      OrderedIsSafe(t.before, t.before);
    }
  }

  /** The native resources together with how they came to be what they are. */
  datatype Machine = Machine(world: World, trace: Trace)

  /** The trace is an ordered one and accounts for the resources. */
  predicate Faithful(m: Machine) {
    Ordered(m.trace) && m.world == Replay(m.trace)
  }

  /** An allowed effect keeps the trace faithful. */
  function Do(m: Machine, e: Effect): (r: Machine)
    ensures Faithful(m) && Allowed(m.world, e) ==> Faithful(r)
  {
    Machine(After(m.world, e), Then(m.trace, e))
  }

  /** `startEngine`: refused while running; the hook goes in before the configuration is parsed. */
  function EngineStarted(m: Machine, parses: bool): Machine {
    if m.world.engine then m
    else
      var parsed := Do(Do(m, HookInstalled), ConfigParsed);
      if parses then Do(parsed, EngineUp) else parsed
  }

  /** `meowStopEngine`: `stopEngine`, then `clearProtectHook` whether or not the engine ran. */
  function EngineStopped(m: Machine): Machine {
    Do(if m.world.engine then Do(m, EngineDown) else m, HookCleared)
  }

  class Native {
    var engineRunning: bool
    var hook: bool
    var vpnService: bool
    var tun: bool
    var tun2socksRunning: bool
    ghost var trace: Trace

    ghost function Now(): Machine
      reads this
    {
      Machine(World(tun, vpnService, hook, engineRunning, tun2socksRunning), trace)
    }

    constructor ()
      ensures Now() == Machine(OFF, Nothing)
    {
      engineRunning, hook, vpnService, tun, tun2socksRunning := false, false, false, false, false;
      trace := Nothing;
    }

    method SetTun(up: bool)
      modifies this
      ensures Now() == Do(old(Now()), if up then TunUp else TunDown)
    {
      tun := up;
      trace := Then(trace, if up then TunUp else TunDown);
    }

    method SetProtect(service: bool)
      modifies this
      ensures Now() == Do(old(Now()), if service then ProtectSet else ProtectCleared)
    {
      vpnService := service;
      trace := Then(trace, if service then ProtectSet else ProtectCleared);
    }

    method StartEngine(parses: bool) returns (ok: bool)
      modifies this
      ensures ok == (!old(engineRunning) && parses)
      ensures Now() == EngineStarted(old(Now()), parses)
    {
      if engineRunning {
        return false;
      }
      hook := true;
      trace := Then(Then(trace, HookInstalled), ConfigParsed);
      if !parses {
        return false;
      }
      engineRunning := true;
      trace := Then(trace, EngineUp);
      ok := true;
    }

    method StopEngine()
      modifies this
      ensures Now() == EngineStopped(old(Now()))
    {
      if engineRunning {
        engineRunning := false;
        trace := Then(trace, EngineDown);
      }
      hook := false;
      trace := Then(trace, HookCleared);
    }

    /** `tun2socks::start` behind its JNI guard: `swap(true)` refuses a second start. */
    method StartTun2Socks(fdValid: bool) returns (ok: bool)
      modifies this
      ensures ok == (fdValid && !old(tun2socksRunning))
      ensures Now() == if ok then Do(old(Now()), ForwarderUp) else old(Now())
    {
      if !fdValid || tun2socksRunning {
        return false;
      }
      tun2socksRunning := true;
      trace := Then(trace, ForwarderUp);
      ok := true;
    }

    /** Clears the flag; the forwarding task itself does the same when it ends. */
    method StopTun2Socks()
      modifies this
      ensures Now() == Do(old(Now()), ForwarderDown)
    {
      tun2socksRunning := false;
      trace := Then(trace, ForwarderDown);
    }
  }
}
