/** The scheduler and the event loop as the source writes them, proved to compute the transitions of `Timers` and
    `EventLoop`. */
module Daemons {
  import opened Config
  import opened Machine
  import opened Supervisors
  import opened Targets
  import opened Timers
  import opened EventLoop

  class Scheduler {
    var boot: Option<Instant>
    var lastFinished: map<string, Instant>
    var running: set<string>
    var pending: map<Pid, string>
    var starts: map<string, seq<Instant>>
    var finishes: map<string, seq<Instant>>
    const host: Host

    ghost function State(): Sched
      reads this
    {
      Sched(boot, lastFinished, running, pending, starts, finishes)
    }

    ghost function Value(): Clocked
      reads this, host
    {
      Clocked(State(), host.Value())
    }

    constructor (host: Host)
      ensures this.host == host && State() == IDLE
    {
      this.host := host;
      boot, lastFinished, running, pending := None, map[], {}, map[];
      starts, finishes := map[], map[];
    }

    /** The first use fixes the boot instant. */
    method Touch()
      modifies this, host
      ensures Value() == Timers.Touch(host.os, old(Value()))
    {
      if boot.None? {
        var now := host.Now();
        boot := Some(now);
      }
    }

    method CollectDue(timers: seq<TimerDef>) returns (due: seq<string>)
      requires boot.Some?
      modifies host
      ensures due == Due(host.os, old(host.Value()), State(), timers, |timers|)
      ensures host.Value() == old(host.Value()).Advance(|timers|)
    {
      due := [];
      for i := 0 to |timers|
        invariant host.Value() == old(host.Value()).Advance(i)
        invariant due == Due(host.os, old(host.Value()), State(), timers, i)
      {
        var now := host.Now();
        if timers[i].name !in running
           && IsDue(timers[i], Sched(boot, lastFinished, running, pending, starts, finishes), now)
        {
          due := due + [timers[i].name];
        }
      }
    }

    method StartOne(name: string, services: seq<ServiceDef>)
      modifies this, host
      ensures Value() == Timers.StartOne(host.os, old(Value()), name, services)
    {
      var def := Lookup(services, name);
      if def.Some? {
        var answer := host.os.spawn(host.t, def.value, host.children);
        var now := host.Now();
        if answer.Started? {
          host.children := host.children + {answer.pid};
          running := running + {name};
          pending := pending[answer.pid := name];
          starts := starts[name := At(starts, name) + [now]];
        }
      }
    }

    /** Starts every due timer whose service is configured and that is not running. */
    method Tick(timers: seq<TimerDef>, services: seq<ServiceDef>)
      modifies this, host
      ensures Value() == Timers.Tick(host.os, old(Value()), timers, services)
    {
      if timers == [] {
        return;
      }
      Touch();
      var due := CollectDue(timers);
      ghost var c := Value();
      for i := 0 to |due|
        invariant Value() == StartAll(host.os, c, due, services, i)
      {
        StartOne(due[i], services);
      }
    }

    /** Takes an exit if it belongs to a timer. */
    method Reap(pid: Pid) returns (handled: bool)
      modifies this, host
      ensures (Value(), handled) == Timers.Reap(host.os, old(Value()), pid)
    {
      Touch();
      if pid !in pending {
        return false;
      }
      var name := pending[pid];
      var now := host.Now();
      pending := pending - {pid};
      running := running - {name};
      lastFinished := lastFinished[name := now];
      finishes := finishes[name := At(finishes, name) + [now]];
      return true;
    }
  }

  /** The variables of `run_event_loop`. */
  class Daemon {
    const sup: Supervisor
    const sched: Scheduler
    var cfg: Configuration
    var target: string
    var timerDefs: seq<TimerDef>
    var watch: Option<Watch>
    var stopped: bool

    ghost predicate Valid() {
      sched.host == sup.host
    }

    ghost function Value(): Loop
      reads this, sup, sup.notify, sup.host, sched
    {
      Loop(sup.Value(), sched.State(), cfg, target, timerDefs, watch, stopped)
    }

    constructor (sup: Supervisor, sched: Scheduler, cfg: Configuration, timers: seq<TimerDef>)
      requires sched.host == sup.host
      ensures Valid() && this.sup == sup && this.sched == sched
      ensures Value() == Loop(sup.Value(), sched.State(), cfg, cfg.defaultTarget, timers, None, false)
    {
      this.sup, this.sched := sup, sched;
      this.cfg, target, timerDefs, watch, stopped := cfg, cfg.defaultTarget, timers, None, false;
    }

    method Reload(newCfg: Configuration, newTimers: seq<TimerDef>)
      requires Valid()
      modifies this, sup, sup.notify, sup.host
      ensures Value() == EventLoop.Reload(sup.host.os, old(Value()), newCfg, newTimers)
    {
      timerDefs := newTimers;
      var previous := cfg;
      var touched := sup.ReloadServices(ServicesIn(newCfg.services, target));
      var now := sup.host.Now();
      watch := Some(Watch(now + WATCH_WINDOW, touched, previous, target));
      cfg := newCfg;
    }

    method Isolate(name: string)
      requires Valid()
      modifies this, sup, sup.notify, sup.host
      ensures Value() == EventLoop.Isolate(sup.host.os, old(Value()), name)
    {
      if HasTarget(cfg.services, name) {
        var _ := sup.ReloadServices(ServicesIn(cfg.services, name));
        target := name;
      }
    }

    method TickTimers()
      requires Valid()
      modifies sched, sup.host
      ensures Value() == EventLoop.TickTimers(sup.host.os, old(Value()))
    {
      sched.Tick(timerDefs, cfg.services);
    }

    method Receive(d: Datagram)
      modifies sup, sup.notify, sup.host
      ensures sup.Value() == EventLoop.Receive(sup.host.os, old(sup.Value()), d)
    {
      if d.watchdog {
        var now := sup.host.Now();
        sup.notify.MarkPing(d.name, now);
        if d.pid in sup.services {
          sup.services := sup.services[d.pid := sup.services[d.pid].(heard := Some(now))];
        }
      } else {
        sup.notify.MarkReady(d.name);
      }
    }

    method WaitFor(inp: Input)
      requires Valid()
      modifies sup, sup.notify, sup.host
      ensures Value() == EventLoop.Wait(sup.host.os, old(Value()), inp)
    {
      if inp.wait.Status? && IsExit(inp.wait.status) {
        sup.host.children := sup.host.children - {inp.wait.status.pid};
      }
      ghost var s := sup.Value();
      for i := 0 to |inp.datagrams|
        invariant sup.Value() == ReceiveAll(sup.host.os, s, inp.datagrams, i)
        invariant Value() == old(Value()).(sup := sup.Value())
      {
        Receive(inp.datagrams[i]);
      }
    }

    /** `rollback::check` on the watch held, if any. */
    method CheckWatch(failed: Option<string>)
      requires Valid()
      modifies this, sup, sup.notify, sup.host
      ensures Value() == EventLoop.CheckWatch(sup.host.os, old(Value()), failed)
    {
      if watch.Some? {
        var w := watch.value;
        if failed.Some? && failed.value in w.touched {
          var _ := sup.ReloadServices(ServicesIn(w.previous.services, w.target));
          cfg := w.previous;
          watch := None;
        } else {
          var now := sup.host.Now();
          if now >= w.deadline {
            watch := None;
          }
        }
      }
    }

    method Stop(graceWaits: seq<WaitResult>)
      requires Valid()
      modifies this, sup, sup.notify
      ensures Value() == EventLoop.Stop(old(Value()), graceWaits)
    {
      var _, _, _, _ := sup.ShutdownAll(graceWaits);
      stopped := true;
    }

    method Supervise(status: WaitStatus, graceWaits: seq<WaitResult>)
      requires Valid()
      modifies this, sup, sup.notify, sup.host
      ensures Value() == EventLoop.Supervise(sup.host.os, old(Value()), status, graceWaits)
    {
      var outcome := sup.HandleExit(status);
      match outcome
      case Continue => CheckWatch(None);
      case GaveUp(name) => CheckWatch(Some(name));
      case Halt(name) =>
        if watch.Some? && name in watch.value.touched {
          CheckWatch(Some(name));
        } else {
          Stop(graceWaits);
        }
    }

    method Dispatch(wait: WaitResult, graceWaits: seq<WaitResult>)
      requires Valid()
      modifies this, sup, sup.notify, sup.host, sched
      ensures Value() == EventLoop.Dispatch(sup.host.os, old(Value()), wait, graceWaits)
    {
      if wait.Status? {
        if wait.status.StillAlive? {
          CheckWatch(None);
        } else {
          var handled := false;
          if IsExit(wait.status) {
            handled := sched.Reap(wait.status.pid);
          }
          if handled {
            CheckWatch(None);
          } else {
            Supervise(wait.status, graceWaits);
          }
        }
      }
    }

    /** Requests first, then the timers. */
    method Prepare(inp: Input)
      requires Valid()
      modifies this, sup, sup.notify, sup.host, sched
      ensures Value() == EventLoop.Prepare(sup.host.os, old(Value()), inp)
    {
      if inp.reload.Some? {
        Reload(inp.reload.value.0, inp.reload.value.1);
      }
      if inp.isolate.Some? {
        Isolate(inp.isolate.value);
      }
      TickTimers();
    }

    /** One iteration; `kills` are the pids sent SIGKILL for missing their watchdog deadline. */
    method Turn(inp: Input) returns (kills: set<Pid>)
      requires Valid() && !stopped
      modifies this, sup, sup.notify, sup.host, sched
      ensures Value() == EventLoop.Turn(sup.host.os, old(Value()), inp)
      ensures kills == if inp.shutdown then {} else WatchdogKills(sup.host.os, old(Value()), inp)
    {
      if inp.shutdown {
        Stop(inp.graceWaits);
        return {};
      }
      Prepare(inp);
      WaitFor(inp);
      var now := sup.host.Now();
      kills := sup.ExpiredWatchdogs(now);
      Dispatch(inp.wait, inp.graceWaits);
    }

    /** The loop, fed with what the outside world presents turn after turn. */
    method RunEventLoop(inputs: seq<Input>)
      requires Valid() && !stopped
      modifies this, sup, sup.notify, sup.host, sched
      ensures Value() == Run(sup.host.os, old(Value()), inputs, |inputs|)
    {
      ghost var st := Value();
      for i := 0 to |inputs|
        invariant Value() == Run(sup.host.os, st, inputs, i)
      {
        if !stopped {
          var _ := Turn(inputs[i]);
        }
      }
    }
  }

  /** `main`: boot the default target, then loop. The final state is the run from boot. */
  method BootAndRun(os: Os, cfg: Configuration, timers: seq<TimerDef>, inputs: seq<Input>) returns (daemon: Daemon)
    ensures daemon.sup.host.os == os
    ensures daemon.Value() == Run(os, Booted(os, cfg, timers), inputs, |inputs|)
  {
    var host := new Host(os);
    var sup := new Supervisor(host);
    var sched := new Scheduler(host);
    sup.SpawnAll(ServicesIn(cfg.services, cfg.defaultTarget));
    daemon := new Daemon(sup, sched, cfg, timers);
    daemon.RunEventLoop(inputs);
  }
}
