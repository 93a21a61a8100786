/** One turn of the event loop (`src/main.rs`) and the reload transaction (`src/rollback.rs`), as functions. */
module EventLoop {
  import opened Config
  import opened Machine
  import opened Supervision
  import opened Targets
  import opened Timers

  const WATCH_WINDOW: Duration := 10 * SECOND

  datatype Watch = Watch(deadline: Instant, touched: seq<string>, previous: Configuration, target: string)

  /** A `WATCHDOG=1` or `READY=1` datagram, from process `pid`, arriving on the socket of service `name`. */
  datatype Datagram = Datagram(pid: Pid, name: string, watchdog: bool)

  /** What the outside world presents to one turn: relayed shutdown, reload and isolate requests, the result of
      `waitpid`, the datagrams handled before the watchdog check, and the wait results of a shutdown's grace. */
  datatype Input = Input(
    shutdown: bool,
    reload: Option<(Configuration, seq<TimerDef>)>,
    isolate: Option<string>,
    wait: WaitResult,
    datagrams: seq<Datagram>,
    graceWaits: seq<WaitResult>)

  datatype Loop = Loop(
    sup: SupState,
    sched: Sched,
    cfg: Configuration,
    target: string,
    timerDefs: seq<TimerDef>,
    watch: Option<Watch>,
    stopped: bool)

  // ---------------------------------------------------------------- the phases of a turn

  /** `rollback::begin` and the assignments around it. */
  function Reload(os: Os, st: Loop, newCfg: Configuration, newTimers: seq<TimerDef>): Loop {
    var r := ReloadServices(os, st.sup, ServicesIn(newCfg.services, st.target));
    var deadline := os.clock(r.sup.kernel.t) + WATCH_WINDOW;
    st.(sup := r.sup.(kernel := r.sup.kernel.Advance(1)),
        watch := Some(Watch(deadline, r.touched, st.cfg, st.target)),
        cfg := newCfg,
        timerDefs := newTimers)
  }

  function Isolate(os: Os, st: Loop, name: string): Loop {
    if !HasTarget(st.cfg.services, name) then st
    else st.(sup := ReloadServices(os, st.sup, ServicesIn(st.cfg.services, name)).sup, target := name)
  }

  function TickTimers(os: Os, st: Loop): Loop {
    var c := Tick(os, Clocked(st.sched, st.sup.kernel), st.timerDefs, st.cfg.services);
    st.(sched := c.sched, sup := st.sup.(kernel := c.kernel))
  }

  /** `waitpid` collects an exited child. */
  function Collect(k: Kernel, wait: WaitResult): Kernel {
    if wait.Status? && IsExit(wait.status) then k.(children := k.children - {wait.status.pid}) else k
  }

  /** A listener thread handles one datagram; it knows only the name its socket was made for. */
  function Receive(os: Os, s: SupState, d: Datagram): SupState {
    var now := os.clock(s.kernel.t);
    if !d.watchdog then s.(notify := s.notify.(ready := s.notify.ready + {d.name}))
    else
      SupState(if d.pid in s.services then s.services[d.pid := s.services[d.pid].(heard := Some(now))] else s.services,
               s.notify.(pings := s.notify.pings[d.name := now]),
               s.kernel.Advance(1))
  }

  function ReceiveAll(os: Os, s: SupState, ds: seq<Datagram>, n: nat): SupState
    requires n <= |ds|
  {
    if n == 0 then s else Receive(os, ReceiveAll(os, s, ds, n - 1), ds[n - 1])
  }

  /** `rollback::check`: a touched failure rolls back, whatever the clock says; otherwise the deadline decides. */
  function Check(os: Os, st: Loop, w: Watch, failed: Option<string>): Loop {
    if failed.Some? && failed.value in w.touched then
      st.(sup := ReloadServices(os, st.sup, ServicesIn(w.previous.services, w.target)).sup,
          cfg := w.previous,
          watch := None)
    else if os.clock(st.sup.kernel.t) < w.deadline then
      st.(sup := st.sup.(kernel := st.sup.kernel.Advance(1)), watch := Some(w))
    else
      st.(sup := st.sup.(kernel := st.sup.kernel.Advance(1)), watch := None)
  }

  function CheckWatch(os: Os, st: Loop, failed: Option<string>): Loop {
    if st.watch.Some? then Check(os, st, st.watch.value, failed) else st
  }

  function Stop(st: Loop, graceWaits: seq<WaitResult>): Loop {
    st.(sup := ShutdownAll(st.sup, graceWaits).sup, stopped := true)
  }

  /** The supervisor's share of an exit: restart, roll back or shut down. */
  function Supervise(os: Os, st: Loop, status: WaitStatus, graceWaits: seq<WaitResult>): Loop {
    var (sup, outcome) := HandleExit(os, st.sup, status);
    var next := st.(sup := sup);
    match outcome
    case Continue => CheckWatch(os, next, None)
    case GaveUp(name) => CheckWatch(os, next, Some(name))
    case Halt(name) =>
      if st.watch.Some? && name in st.watch.value.touched then CheckWatch(os, next, Some(name))
      else Stop(next, graceWaits)
  }

  /** What the loop does with the result of `waitpid`; timers get first refusal at an exit. */
  function Dispatch(os: Os, st: Loop, wait: WaitResult, graceWaits: seq<WaitResult>): Loop {
    if !wait.Status? then st
    else if wait.status.StillAlive? then CheckWatch(os, st, None)
    else if IsExit(wait.status) then
      var (c, handled) := Reap(os, Clocked(st.sched, st.sup.kernel), wait.status.pid);
      var next := st.(sched := c.sched, sup := st.sup.(kernel := c.kernel));
      if handled then CheckWatch(os, next, None) else Supervise(os, next, wait.status, graceWaits)
    else Supervise(os, st, wait.status, graceWaits)
  }

  /** What the relayed requests do, a reload first. */
  function AfterRequests(os: Os, st: Loop, inp: Input): Loop {
    var reloaded := if inp.reload.Some? then Reload(os, st, inp.reload.value.0, inp.reload.value.1) else st;
    if inp.isolate.Some? then Isolate(os, reloaded, inp.isolate.value) else reloaded
  }

  /** Everything up to the wait. */
  function Prepare(os: Os, st: Loop, inp: Input): Loop {
    TickTimers(os, AfterRequests(os, st, inp))
  }

  /** The wait itself and what the listener threads do before the watchdog check. */
  function Wait(os: Os, st: Loop, inp: Input): Loop {
    var s := st.sup.(kernel := Collect(st.sup.kernel, inp.wait));
    st.(sup := ReceiveAll(os, s, inp.datagrams, |inp.datagrams|))
  }

  /** The pids a turn sends SIGKILL for missing their watchdog deadline. */
  function WatchdogKills(os: Os, st: Loop, inp: Input): set<Pid> {
    var waited := Wait(os, Prepare(os, st, inp), inp);
    ExpiredWatchdogs(waited.sup, os.clock(waited.sup.kernel.t))
  }

  function Turn(os: Os, st: Loop, inp: Input): Loop {
    if st.stopped then st
    else if inp.shutdown then Stop(st, inp.graceWaits)
    else
      var waited := Wait(os, Prepare(os, st, inp), inp);
      Dispatch(os, waited.(sup := waited.sup.(kernel := waited.sup.kernel.Advance(1))), inp.wait, inp.graceWaits)
  }

  /** The state after the first `n` turns. */
  function Run(os: Os, st: Loop, inputs: seq<Input>, n: nat): Loop
    requires n <= |inputs|
  {
    if n == 0 then st else Turn(os, Run(os, st, inputs, n - 1), inputs[n - 1])
  }

  /** `trace` lists the states of a run, one turn after another. */
  ghost predicate IsRun(os: Os, trace: seq<Loop>, inputs: seq<Input>) {
    && |trace| == |inputs| + 1
    && forall i {:trigger StepAt(os, trace, inputs, i)} :: 0 <= i < |inputs| ==> StepAt(os, trace, inputs, i)
  }

  ghost predicate StepAt(os: Os, trace: seq<Loop>, inputs: seq<Input>, i: nat)
    requires i < |inputs| && i + 1 < |trace|
  {
    trace[i + 1] == Turn(os, trace[i], inputs[i])
  }

  lemma StepTo(os: Os, trace: seq<Loop>, inputs: seq<Input>, n: nat)
    requires IsRun(os, trace, inputs) && 0 < n <= |inputs|
    ensures trace[n] == Turn(os, trace[n - 1], inputs[n - 1])
  {
    assert StepAt(os, trace, inputs, n - 1);
  }

  lemma ExtendRun(os: Os, trace: seq<Loop>, inputs: seq<Input>, inp: Input, next: Loop)
    requires IsRun(os, trace, inputs) && next == Turn(os, trace[|inputs|], inp)
    ensures IsRun(os, trace + [next], inputs + [inp])
  {
    var longer, all := trace + [next], inputs + [inp];
    forall i | 0 <= i < |all| ensures StepAt(os, longer, all, i) {
      if i < |inputs| {
        assert StepAt(os, trace, inputs, i);
      }
    }
  }

  /** The loop's states form a run. */
  lemma TraceOfRun(os: Os, st: Loop, inputs: seq<Input>) returns (trace: seq<Loop>)
    ensures IsRun(os, trace, inputs) && trace[0] == st && trace[|inputs|] == Run(os, st, inputs, |inputs|)
    ensures forall n :: 0 <= n <= |inputs| ==> trace[n] == Run(os, st, inputs, n)
  {
    trace := seq(|inputs| + 1, n requires 0 <= n <= |inputs| => Run(os, st, inputs, n));
    forall i | 0 <= i < |inputs| ensures StepAt(os, trace, inputs, i) {
      assert Run(os, st, inputs, i + 1) == Turn(os, Run(os, st, inputs, i), inputs[i]);
    }
  }

  /** The state in which the loop is entered: the services of the default target booted, nothing else. */
  function Booted(os: Os, cfg: Configuration, timers: seq<TimerDef>): Loop {
    var start := SupState(map[], Notify({}, map[]), Kernel(0, {}));
    Loop(SpawnAll(os, start, ServicesIn(cfg.services, cfg.defaultTarget)).sup, IDLE, cfg, cfg.defaultTarget, timers,
         None, false)
  }
}
