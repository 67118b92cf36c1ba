/** Live monitoring: each connection may ask for the status of one tuner to be
    pushed to it every second. The gateway keeps, per connection, the handle of
    the interval timer doing this; starting again replaces the timer, stopping
    or disconnecting clears it. */
module Monitor {
  import opened Text
  import opened Tool
  import opened Status

  /** The tuner a timer polls. */
  datatype Target = Target(deviceId: string, tuner: string)

  /** An interval timer: the connection it pushes to and the tuner it polls. */
  datatype Timer = Timer(socket: string, target: Target)

  /** `hdhomerun_config <deviceId> get /tuner<tuner>/status`, with the short
      timeout of a tick. */
  function TickCall(target: Target): Call {
    Call([target.deviceId, "get", TunerPath(target.tuner, "status")], TickTimeout)
  }

  /** One tick: the parsed status when the read succeeds, the idle status when
      it fails; either way a well-shaped status is pushed. */
  function Tick(exec: Oracle, target: Target): (status: StatusObject)
    ensures WellShaped(status)
    ensures exec(TickCall(target)).Failed? ==> status == IdleStatus
    ensures exec(TickCall(target)).Done? ==> status == StatusOf(exec(TickCall(target)).stdout)
  {
    match exec(TickCall(target))
    case Done(out) =>
      StatusOf(out)
    case Failed(_) =>
      IdleStatusShape();
      IdleStatus
  }

  /** An unreachable device yields the idle status on every tick: channel
      "none", an empty lock and zero figures. */
  lemma TickUnreachable(exec: Oracle, target: Target)
    requires exec(TickCall(target)).Failed?
    ensures Tick(exec, target)["channel"] == Str("none") && Tick(exec, target)["lock"] == Str("")
    ensures forall k | k in NumericKeys :: k in Tick(exec, target) && Tick(exec, target)[k] == Num(0.0)
  {
    IdleStatusShape();
  }

  /** `monitorState` together with the timers it refers to: `active` maps a
      connection to the handle stored for it, `timers` records every interval
      created, by handle, `cleared` holds the handles passed to `clearInterval`
      and `next` is the next handle `setInterval` returns. Every stored handle is
      a running timer of its own connection, handles are never reused, only
      created timers are cleared, and every running timer is the one stored for
      its connection: no interval keeps running unreferenced. */
  ghost predicate Registered(active: map<string, nat>, timers: map<nat, Timer>, cleared: set<nat>, next: nat) {
    && (forall s | s in active :: active[s] in timers && active[s] !in cleared && timers[active[s]].socket == s)
    && (forall h | h in timers :: h < next)
    && (forall h | h in cleared :: h in timers)
    && (forall h | h in timers && h !in cleared :: timers[h].socket in active && active[timers[h].socket] == h)
  }

  /** The timers running for a connection. */
  ghost function RunningOf(timers: map<nat, Timer>, cleared: set<nat>, socket: string): set<nat> {
    set h | h in timers && h !in cleared && timers[h].socket == socket
  }

  /** In a consistent registry a connection has at most one running timer: the
      one stored for it. */
  lemma RunningIsStored(active: map<string, nat>, timers: map<nat, Timer>, cleared: set<nat>, next: nat, socket: string)
    requires Registered(active, timers, cleared, next)
    ensures RunningOf(timers, cleared, socket) == if socket in active then {active[socket]} else {}
  {
  }

  /** The handle stored for a connection, as a set: what `clearInterval(prev)`
      stops. */
  function StoredFor(active: map<string, nat>, socket: string): set<nat> {
    if socket in active then {active[socket]} else {}
  }

  /** start-monitoring keeps the registry consistent; afterwards the connection
      has exactly one running timer, the new one, and other connections keep
      theirs. */
  lemma StartKeeps(active: map<string, nat>, timers: map<nat, Timer>, cleared: set<nat>, next: nat,
                   socket: string, target: Target)
    requires Registered(active, timers, cleared, next)
    ensures var timers', cleared' := timers[next := Timer(socket, target)], cleared + StoredFor(active, socket);
      && next !in timers
      && Registered(active[socket := next], timers', cleared', next + 1)
      && RunningOf(timers', cleared', socket) == {next}
      && forall s | s != socket :: RunningOf(timers', cleared', s) == RunningOf(timers, cleared, s)
  {
    var timers', cleared' := timers[next := Timer(socket, target)], cleared + StoredFor(active, socket);
    RunningIsStored(active[socket := next], timers', cleared', next + 1, socket);
  }

  /** stop-monitoring keeps the registry consistent; afterwards the connection
      has no running timer, and other connections keep theirs. */
  lemma StopKeeps(active: map<string, nat>, timers: map<nat, Timer>, cleared: set<nat>, next: nat, socket: string)
    requires Registered(active, timers, cleared, next)
    ensures var cleared' := cleared + StoredFor(active, socket);
      && Registered(active - {socket}, timers, cleared', next)
      && RunningOf(timers, cleared', socket) == {}
      && forall s | s != socket :: RunningOf(timers, cleared', s) == RunningOf(timers, cleared, s)
  {
    var cleared' := cleared + StoredFor(active, socket);
    RunningIsStored(active - {socket}, timers, cleared', next, socket);
  }

  /** Starting twice on one connection leaves exactly one running timer for it,
      the one polling the second target. */
  lemma StartTwiceRunsOne(socket: string, first: Target, second: Target)
    ensures var a1, t1, c1 := map[socket := 0], map[0 := Timer(socket, first)], {};
      var t2, c2 := t1[1 := Timer(socket, second)], c1 + StoredFor(a1, socket);
      && RunningOf(t2, c2, socket) == {1} && t2[1].target == second
  {
    var a1, t1, c1 := map[socket := 0], map[0 := Timer(socket, first)], {};
    StartKeeps(map[], map[], {}, 0, socket, first);
    StartKeeps(a1, t1, c1, 1, socket, second);
  }

  class MonitorRegistry {
    var active: map<string, nat>
    var timers: map<nat, Timer>
    var cleared: set<nat>
    var next: nat

    ghost predicate Valid()
      reads this
    {
      Registered(active, timers, cleared, next)
    }

    /** The timers running for a connection. */
    ghost function Running(socket: string): set<nat>
      reads this
    {
      RunningOf(timers, cleared, socket)
    }

    constructor()
      ensures Valid()
      ensures active == map[] && timers == map[] && cleared == {}
    {
      active := map[];
      timers := map[];
      cleared := {};
      next := 0;
    }

    /** start-monitoring: clear the connection's timer if it has one, create a
        timer for the new target and store its handle. */
    method Start(socket: string, target: Target) returns (handle: nat)
      requires Valid()
      modifies this
      ensures Valid()
      ensures handle !in old(timers) && next == old(next) + 1
      ensures active == old(active)[socket := handle]
      ensures timers == old(timers)[handle := Timer(socket, target)]
      ensures cleared == old(cleared) + StoredFor(old(active), socket)
      ensures Running(socket) == {handle} && timers[handle].target == target
      ensures forall s | s != socket :: Running(s) == old(Running(s))
    {
      StartKeeps(active, timers, cleared, next, socket, target);
      if socket in active {
        cleared := cleared + {active[socket]};
      }
      handle := next;
      next := next + 1;
      timers := timers[handle := Timer(socket, target)];
      active := active[socket := handle];
    }

    /** stop-monitoring: clear the connection's timer if it has one and forget
        it; nothing happens for a connection without one. */
    method Stop(socket: string)
      requires Valid()
      modifies this
      ensures Valid()
      ensures active == old(active) - {socket}
      ensures timers == old(timers) && next == old(next)
      ensures cleared == old(cleared) + StoredFor(old(active), socket)
      ensures Running(socket) == {}
      ensures forall s | s != socket :: Running(s) == old(Running(s))
    {
      StopKeeps(active, timers, cleared, next, socket);
      if socket in active {
        cleared := cleared + {active[socket]};
      }
      active := active - {socket};
    }

    /** disconnect: the same as stop-monitoring. */
    method Disconnect(socket: string)
      requires Valid()
      modifies this
      ensures Valid()
      ensures active == old(active) - {socket}
      ensures timers == old(timers) && next == old(next)
      ensures cleared == old(cleared) + StoredFor(old(active), socket)
      ensures Running(socket) == {}
      ensures forall s | s != socket :: Running(s) == old(Running(s))
    {
      Stop(socket);
    }
  }
}
