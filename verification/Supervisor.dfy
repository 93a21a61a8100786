/** The supervisor as the source writes it: objects whose methods update tables in place, each proved to compute the
    transition of `Supervision`. */
module Supervisors {
  import opened Config
  import opened Machine
  import opened Folding
  import opened Ordering
  import opened Supervision

  /** The kernel's side of the conversation, shared by the supervisor and the timers. */
  class Host {
    const os: Os
    var t: nat
    var children: set<Pid>

    ghost function Value(): Kernel
      reads this
    {
      Kernel(t, children)
    }

    constructor (os: Os)
      ensures this.os == os && Value() == Kernel(0, {})
    {
      this.os := os;
      t, children := 0, {};
    }

    method Now() returns (now: Instant)
      modifies this
      ensures now == os.clock(old(t)) && Value() == old(Value()).Advance(1)
    {
      now := os.clock(t);
      t := t + 1;
    }
  }

  /** `ReadyState` (`src/notify.rs`): what services reported about themselves, by name. */
  class ReadyState {
    var ready: set<string>
    var pings: map<string, Instant>

    ghost function Value(): Notify
      reads this
    {
      Notify(ready, pings)
    }

    constructor ()
      ensures Value() == Notify({}, map[])
    {
      ready, pings := {}, map[];
    }

    method MarkReady(name: string)
      modifies this
      ensures Value() == old(Value()).(ready := old(ready) + {name})
    {
      ready := ready + {name};
    }

    method MarkPing(name: string, now: Instant)
      modifies this
      ensures Value() == old(Value()).(pings := old(pings)[name := now])
    {
      pings := pings[name := now];
    }

    method LastPing(name: string) returns (at: Option<Instant>)
      ensures at == Value().LastPing(name)
    {
      at := if name in pings then Some(pings[name]) else None;
    }

    method ForgetEach(names: set<string>)
      modifies this
      ensures Value() == old(Value()).ForgetAll(names)
    {
      var todo := names;
      while todo != {}
        invariant todo <= names && Value() == old(Value()).ForgetAll(names - todo)
        decreases |todo|
      {
        var name :| name in todo;
        Forget(name);
        todo := todo - {name};
      }
    }

    method Forget(name: string)
      modifies this
      ensures Value() == old(Value()).Forget(name)
    {
      ready := ready - {name};
      pings := pings - {name};
    }
  }

  class Supervisor {
    var services: Services
    const notify: ReadyState
    const host: Host

    ghost function Value(): SupState
      reads this, notify, host
    {
      SupState(services, notify.Value(), host.Value())
    }

    constructor (host: Host)
      ensures this.host == host && fresh(notify)
      ensures Value() == SupState(map[], Notify({}, map[]), host.Value())
    {
      this.host := host;
      services := map[];
      notify := new ReadyState();
    }

    method SpawnWithHistory(def: ServiceDef, history: seq<Instant>, chain: seq<Instant>)
      modifies this, notify, host
      ensures Value() == Supervision.SpawnWithHistory(host.os, old(Value()), def, history, chain)
    {
      notify.Forget(def.name);
      var answer := host.os.spawn(host.t, def, host.children);
      var now := host.Now();
      match answer
      case Started(pid) =>
        host.children := host.children + {pid};
        services := services[pid := Supervised(def, history, now, chain, None, host.t - 1)];
      case Refused(shell) =>
        if def.critical && shell.Some? {
          host.children := host.children + {shell.value};
          services := services[shell.value := Supervised(FallbackShell(), [], now, [], None, host.t - 1)];
        }
    }

    method BootOne(def: ServiceDef, configured: set<string>, spawned: set<string>, ghost b: Boot)
      returns (spawned': set<string>, ghost b': Boot)
      requires b.sup == Value() && b.spawned == spawned
      modifies this, notify, host
      ensures b' == Supervision.BootOne(host.os, b, def, configured)
      ensures Value() == b'.sup && spawned' == b'.spawned
    {
      spawned' := spawned;
      b' := Supervision.BootOne(host.os, b, def, configured);
      if !HardMissing(def, configured, spawned) {
        host.t := host.t + |def.afterReady|;
        SpawnWithHistory(def, [], []);
        if Named(services, def.name) != {} {
          spawned' := spawned' + {def.name};
        }
      }
    }

    /** Starts every service in dependency order, skipping those whose configured requirements did not start. */
    method SpawnAll(defs: seq<ServiceDef>)
      modifies this, notify, host
      ensures Value() == Supervision.SpawnAll(host.os, old(Value()), defs).sup
    {
      var folded := FoldAfter(defs);
      var ordered := TopologicalOrder(folded);
      var configured, spawned := Names(defs), {};
      ghost var s0 := Value();
      ghost var b := Boot(s0, {}, [], {});
      for i := 0 to |ordered|
        invariant b == BootLoop(host.os, s0, ordered, configured, i)
        invariant Value() == b.sup && spawned == b.spawned
      {
        spawned, b := BootOne(ordered[i], configured, spawned, b);
      }
    }

    method HandleExit(status: WaitStatus) returns (outcome: Outcome)
      modifies this, notify, host
      ensures (Value(), outcome) == Supervision.HandleExit(host.os, old(Value()), status)
    {
      if !IsExit(status) || status.pid !in services {
        return Continue;
      }
      var sup := services[status.pid];
      services := services - {status.pid};
      notify.Forget(sup.def.name);
      if sup.def.critical {
        return Halt(sup.def.name);
      }
      if ShouldRestart(sup.def.restart, status) {
        var now := host.Now();
        var times := Retain(sup.restartTimes, now);
        times := times + [now];
        if |times| > MAX_RESTARTS_IN_WINDOW {
          return GaveUp(sup.def.name);
        }
        SpawnWithHistory(sup.def, times, sup.chain + [now]);
      }
      return Continue;
    }

    /** Takes one process out of the table; `t` is when the stopping began. */
    method StopOne(pid: Pid)
      modifies this, notify, host
      ensures Value() == Stopping(host.os, old(Value()), {pid})
    {
      assert NamesOf(services, {pid}) == if pid in services then {services[pid].def.name} else {};
      if pid in services {
        notify.Forget(services[pid].def.name);
        services := services - {pid};
      }
      if host.os.reaped(host.t, pid) {
        host.children := host.children - {pid};
      }
    }

    /** Stops processes one by one, in any order. */
    method StopMany(pids: set<Pid>)
      modifies this, notify, host
      ensures Value() == StopAll(host.os, old(Value()), pids)
    {
      var todo := pids;
      ghost var s0 := Value();
      while |todo| > 0
        invariant todo <= pids
        invariant Value() == Stopping(host.os, s0, pids - todo)
        decreases |todo|
      {
        var pid := AnyOf(todo);
        ghost var done := pids - todo;
        StopOne(pid);
        StoppingGrows(host.os, s0, done, pid);
        todo := todo - {pid};
        assert pids - todo == done + {pid};
      }
      assert pids - todo == pids;
      host.t := host.t + 1;
    }

    method ReloadOne(def: ServiceDef) returns (touched: seq<string>)
      modifies this, notify, host
      ensures Reloaded(Value(), touched) == Supervision.ReloadOne(host.os, old(Value()), def)
    {
      var found := Named(services, def.name);
      if found == {} {
        SpawnWithHistory(def, [], []);
        return [def.name];
      }
      var pid := host.os.pick(host.t, found);
      if pid in services && DefsEqual(services[pid].def, def) {
        return [];
      }
      services := services - {pid};
      if host.os.reaped(host.t, pid) {
        host.children := host.children - {pid};
      }
      host.t := host.t + 1;
      assert host.Value() == StopKernel(host.os, old(host.Value()), {pid});
      SpawnWithHistory(def, [], []);
      return [def.name];
    }

    /** Reconciles the running services with `defs` and returns the names started or restarted. */
    method ReloadServices(defs: seq<ServiceDef>) returns (touched: seq<string>)
      modifies this, notify, host
      ensures Reloaded(Value(), touched) == Supervision.ReloadServices(host.os, old(Value()), defs)
    {
      ghost var s0 := Value();
      var stale := set p | p in services && services[p].def.name !in Names(defs);
      assert stale == Stale(s0, defs);
      StopMany(stale);
      ghost var s1 := Value();
      touched := [];
      for i := 0 to |defs|
        invariant Reloaded(Value(), touched) == ReloadLoop(host.os, s1, defs, i)
      {
        var one := ReloadOne(defs[i]);
        touched := touched + one;
      }
    }

    method ExpiredWatchdogs(now: Instant) returns (expired: set<Pid>)
      ensures expired == Supervision.ExpiredWatchdogs(Value(), now)
    {
      var todo := services.Keys;
      expired := {};
      ghost var s := Value();
      while |todo| > 0
        invariant todo <= services.Keys && Value() == s
        invariant forall p :: p in expired <==> p in services && p !in todo && Expired(s, p, now)
        decreases |todo|
      {
        var pid := AnyOf(todo);
        var late := IsLate(pid, now);
        if late {
          expired := expired + {pid};
        }
        todo := todo - {pid};
      }
    }

    method IsLate(pid: Pid, now: Instant) returns (late: bool)
      requires pid in services
      ensures late == Expired(Value(), pid, now)
    {
      var e := services[pid];
      if e.def.watchdogTimeout.None? {
        return false;
      }
      var ping := notify.LastPing(e.def.name);
      var last := if ping.Some? then ping.value else e.startedAt;
      late := Since(now, last) > e.def.watchdogTimeout.value;
    }

    /** SIGTERM, a grace period that sees `waits`, SIGKILL for what is left, then a sweep of every cgroup. */
    method ShutdownAll(waits: seq<WaitResult>)
      returns (terminated: set<Pid>, reaped: seq<Pid>, killed: set<Pid>, swept: set<string>)
      modifies this, notify
      ensures Shutdown(Value(), terminated, reaped, killed, swept) == Supervision.ShutdownAll(old(Value()), waits)
    {
      swept := NamesOf(services, services.Keys);
      terminated := services.Keys;
      reaped := [];
      var i := 0;
      ghost var all := GraceLoop(services, waits);
      while i < |waits| && services != map[] && !waits[i].NoChildren?
        invariant i <= |waits| && notify.Value() == old(notify.Value())
        invariant GraceLoop(services, waits[i..]).left == all.left
        invariant reaped + GraceLoop(services, waits[i..]).reaped == all.reaped
      {
        assert waits[i..][1..] == waits[i + 1..];
        if waits[i].Status? && IsExit(waits[i].status) {
          reaped := reaped + [waits[i].status.pid];
          services := services - {waits[i].status.pid};
        }
        i := i + 1;
      }
      assert GraceLoop(services, waits[i..]) == Grace(services, []);
      assert reaped + [] == reaped;
      killed := services.Keys;
      notify.ForgetEach(swept);
    }
  }

  /** Some element, as an unordered iteration meets them. */
  method AnyOf(pids: set<Pid>) returns (pid: Pid)
    requires |pids| > 0
    ensures pid in pids
  {
    pid :| pid in pids;
  }

  /** `Vec::retain` on restart times. */
  method Retain(times: seq<Instant>, now: Instant) returns (kept: seq<Instant>)
    ensures kept == Recent(times, now)
  {
    kept := [];
    for i := 0 to |times|
      invariant kept == Recent(times[..i], now)
    {
      assert times[..i + 1][..i] == times[..i];
      if Since(now, times[i]) < BACKOFF_WINDOW {
        kept := kept + [times[i]];
      }
    }
    assert times[..|times|] == times;
  }

  /** The state while `done` are being stopped. */
  ghost function Stopping(os: Os, s: SupState, done: set<Pid>): SupState {
    SupState(s.services - done, s.notify.ForgetAll(NamesOf(s.services, done)),
             Kernel(s.kernel.t, s.kernel.children - set p | p in done && os.reaped(s.kernel.t, p)))
  }

  lemma StoppingGrows(os: Os, s: SupState, done: set<Pid>, pid: Pid)
    requires pid !in done
    ensures Stopping(os, Stopping(os, s, done), {pid}) == Stopping(os, s, done + {pid})
  {
    var both, later := Stopping(os, s, done + {pid}), Stopping(os, Stopping(os, s, done), {pid});
    NamesOfGrows(s.services, done, pid);
    assert later.services == both.services;
    assert later.kernel.children == both.kernel.children;
    assert later.notify.ready == both.notify.ready && later.notify.pings == both.notify.pings;
  }

  lemma NamesOfGrows(services: Services, done: set<Pid>, pid: Pid)
    requires pid !in done
    ensures NamesOf(services, done + {pid}) == NamesOf(services, done) + NamesOf(services - done, {pid})
  {
    if pid in services {
      assert services[pid].def.name in NamesOf(services, done + {pid});
    }
  }
}
