/** Restart budgets, watchdogs and timer rates over every run of the event loop. */
module Guarantees {
  import opened Config
  import opened Machine
  import opened Supervision
  import opened Timers
  import opened TimerRates
  import opened EventLoop
  import opened Backoff
  import opened Targets
  import opened Reconcile
  import opened Invariants
  import opened Runs
  import opened Rollback

  // ---------------------------------------------------------------- restarts

  /** At every loop head of every run, whatever the interleaving of exits, reloads, isolates and rollbacks, the
      chain of automatic restarts of each tracked service has at most five in every ten-second interval. */
  lemma RestartBudget(os: Os, trace: seq<Loop>, inputs: seq<Input>, n: nat, pid: Pid, w: Instant)
    requires GoodRun(os, trace, inputs, false) && n <= |inputs|
    requires var st := trace[n]; !st.stopped && pid in st.sup.services
    ensures var e := trace[n].sup.services[pid];
            CountIn(e.chain, w, w + BACKOFF_WINDOW) <= MAX_RESTARTS_IN_WINDOW
  {
    RunKeepsInv(os, trace, inputs, n, false);
    var e := trace[n].sup.services[pid];
    assert InWindow(e.chain, w) <= MAX_RESTARTS_IN_WINDOW;
  }

  /** In every run the supervisor gives up on a service exactly when restarting it now would be its sixth automatic
      restart in the ten seconds ending now. */
  lemma GivesUpExactly(os: Os, trace: seq<Loop>, inputs: seq<Input>, n: nat, at: Loop)
    requires GoodRun(os, trace, inputs, false) && n < |inputs|
    requires !trace[n].stopped
    requires at == BeforeDispatch(os, trace[n], inputs[n])
    requires Exits(at, inputs[n].wait)
    ensures GivesUpAtSixth(os, AfterReap(os, at, inputs[n].wait.status.pid).sup, inputs[n].wait.status)
  {
    RunKeepsInv(os, trace, inputs, n, false);
    DispatchInv(os, trace[n], inputs[n]);
    ExitGivesUp(os, at, inputs[n].wait);
  }

  /** Giving up means that the sixth restart in the ten seconds ending now would be due. */
  ghost predicate GivesUpAtSixth(os: Os, s: SupState, status: WaitStatus)
    requires IsExit(status) && status.pid in s.services
  {
    var e, now := s.services[status.pid], os.clock(s.kernel.t);
    HandleExit(os, s, status).1.GaveUp? <==>
      && !e.def.critical && ShouldRestart(e.def.restart, status)
      && CountIn(e.chain + [now], now - BACKOFF_WINDOW + 1, now + 1) > MAX_RESTARTS_IN_WINDOW
  }

  lemma ExitGivesUp(os: Os, at: Loop, wait: WaitResult)
    requires os.MonotoneClock() && Exits(at, wait) && LoopInv(os, Reopened(at, wait), false) && Collected(at, wait)
    ensures GivesUpAtSixth(os, AfterReap(os, at, wait.status.pid).sup, wait.status)
  {
    ReapPhase(os, at, wait, false);
    InOrderAt(os, AfterReap(os, at, wait.status.pid), wait);
    SixthAt(os, AfterReap(os, at, wait.status.pid).sup, wait.status);
  }

  lemma SixthAt(os: Os, s: SupState, status: WaitStatus)
    requires IsExit(status) && status.pid in s.services
    requires FaithfulHistory(s.services[status.pid].restartTimes, s.services[status.pid].chain)
    requires UpTo(s.services[status.pid].chain, os.clock(s.kernel.t))
    ensures GivesUpAtSixth(os, s, status)
  {
    var e := s.services[status.pid];
    PrunedIsEnough(e.restartTimes, e.chain, os.clock(s.kernel.t));
  }

  lemma InOrderAt(os: Os, st: Loop, wait: WaitResult)
    requires wait.Status? && IsExit(wait.status) && wait.status.pid in st.sup.services
    requires LoopInv(os, Reopened(st, wait), false)
    ensures var e := st.sup.services[wait.status.pid];
            FaithfulHistory(e.restartTimes, e.chain) && UpTo(e.chain, os.clock(st.sup.kernel.t))
  {
    assert EntryOk(os, st.sup.services[wait.status.pid], st.sup.notify, os.clock(st.sup.kernel.t), false);
  }

  lemma DispatchInv(os: Os, st: Loop, inp: Input)
    requires os.Valid() && os.MonotoneClock() && LoopInv(os, st, false) && GoodInput(inp)
    ensures var at := BeforeDispatch(os, st, inp); LoopInv(os, Reopened(at, inp.wait), false) && Collected(at, inp.wait)
  {
    PreparePhase(os, st, inp, false);
    WaitPhase(os, Prepare(os, st, inp), inp, false);
    LookPhase(os, Wait(os, Prepare(os, st, inp), inp), inp.wait, false);
  }

  // ---------------------------------------------------------------- watchdogs

  /** Where every datagram comes from a live instance, a turn kills exactly the watched services whose own last
      ping, or start if they never pinged, is longer ago than their timeout. Left open is only a watched service
      called `shell` on a system that may start rescue shells, which answer to that name. */
  lemma WatchdogsExact(os: Os, trace: seq<Loop>, inputs: seq<Input>, n: nat, pid: Pid)
    requires GoodRun(os, trace, inputs, true) && n < |inputs|
    requires var st := trace[n];
             && !st.stopped && pid in Wait(os, Prepare(os, st, inputs[n]), inputs[n]).sup.services
             && var def := Wait(os, Prepare(os, st, inputs[n]), inputs[n]).sup.services[pid].def;
                def.name !in Exempt(os) || def.watchdogTimeout.None?
    ensures var st := trace[n];
            var s := Wait(os, Prepare(os, st, inputs[n]), inputs[n]).sup;
            var e, now := s.services[pid], os.clock(s.kernel.t);
            pid in WatchdogKills(os, st, inputs[n]) <==>
              && e.def.watchdogTimeout.Some?
              && now - (if e.heard.Some? then e.heard.value else e.startedAt) > e.def.watchdogTimeout.value
  {
    var st, inp := trace[n], inputs[n];
    RunKeepsInv(os, trace, inputs, n, true);
    PreparePhase(os, st, inp, true);
    assert TimelyInput(os, st, inp);
    WaitPhase(os, Prepare(os, st, inp), inp, true);
    var s := Wait(os, Prepare(os, st, inp), inp).sup;
    assert EntryOk(os, s.services[pid], s.notify, os.clock(s.kernel.t), true);
  }

  // ---------------------------------------------------------------- timers

  /** Every list of timers in which `t` is named defines it as `t`. */
  ghost predicate Fixed(t: TimerDef, timers: seq<TimerDef>) {
    forall u :: u in timers && u.name == t.name ==> u == t
  }

  ghost predicate PaceInv(os: Os, st: Loop, t: TimerDef) {
    Paced(st.sched, t, os.clock(st.sup.kernel.t)) && Fixed(t, st.timerDefs)
  }

  lemma LaterPace(os: Os, st: Loop, next: Loop, t: TimerDef)
    requires os.MonotoneClock() && PaceInv(os, st, t)
    requires next.sched == st.sched && st.sup.kernel.t <= next.sup.kernel.t && Fixed(t, next.timerDefs)
    ensures PaceInv(os, next, t)
  {
    assert os.clock(st.sup.kernel.t) <= os.clock(next.sup.kernel.t);
    PacedLater(st.sched, next.sched, t, os.clock(st.sup.kernel.t), os.clock(next.sup.kernel.t));
  }

  lemma ReloadTakesTime(os: Os, s: SupState, all: seq<ServiceDef>, target: string, other: set<Pid>)
    requires os.Valid() && SupInv(os, s, other, false) && UniqueNames(all)
    ensures s.kernel.t <= ReloadServices(os, s, ServicesIn(all, target)).sup.kernel.t
  {
    ServicesInExact(all, target);
    ReloadConforms(os, s, ServicesIn(all, target));
  }

  lemma PreparePace(os: Os, st: Loop, inp: Input, t: TimerDef)
    requires os.Valid() && os.MonotoneClock() && LoopInv(os, st, false) && GoodInput(inp) && PaceInv(os, st, t)
    requires inp.reload.Some? ==> Fixed(t, inp.reload.value.1)
    ensures PaceInv(os, Prepare(os, st, inp), t)
  {
    var other := st.sched.pending.Keys;
    var reloaded := if inp.reload.Some? then Reload(os, st, inp.reload.value.0, inp.reload.value.1) else st;
    if inp.reload.Some? {
      ReloadPhase(os, st, inp.reload.value.0, inp.reload.value.1, false);
      ReloadTakesTime(os, st.sup, inp.reload.value.0.services, st.target, other);
    }
    LaterPace(os, st, reloaded, t);
    var isolated := if inp.isolate.Some? then Isolate(os, reloaded, inp.isolate.value) else reloaded;
    if inp.isolate.Some? {
      IsolatePhase(os, reloaded, inp.isolate.value, false);
      ReloadTakesTime(os, reloaded.sup, reloaded.cfg.services, inp.isolate.value, other);
    }
    LaterPace(os, reloaded, isolated, t);
    TickPaced(os, Clocked(isolated.sched, isolated.sup.kernel), t, isolated.timerDefs, isolated.cfg.services);
  }

  lemma CheckPace(os: Os, st: Loop, failed: Option<string>, t: TimerDef)
    requires os.Valid() && os.MonotoneClock() && LoopInv(os, st, false) && PaceInv(os, st, t)
    ensures PaceInv(os, CheckWatch(os, st, failed), t)
  {
    if st.watch.Some? {
      ReloadTakesTime(os, st.sup, st.watch.value.previous.services, st.watch.value.target, st.sched.pending.Keys);
    }
    LaterPace(os, st, CheckWatch(os, st, failed), t);
  }

  lemma SupervisePace(os: Os, st: Loop, wait: WaitResult, graceWaits: seq<WaitResult>, t: TimerDef)
    requires os.Valid() && os.MonotoneClock() && wait.Status? && PaceInv(os, st, t)
    requires LoopInv(os, Reopened(st, wait), false) && Collected(st, wait)
    requires IsExit(wait.status) ==> wait.status.pid !in st.sched.pending
    ensures PaceInv(os, Supervise(os, st, wait.status, graceWaits), t)
  {
    var (sup, outcome) := HandleExit(os, st.sup, wait.status);
    var next := st.(sup := sup);
    if IsExit(wait.status) && wait.status.pid in st.sup.services {
      ExitKeepsInv(os, st.sup, wait.status, st.sched.pending.Keys, false);
    }
    assert LoopInv(os, next, false);
    LaterPace(os, st, next, t);
    CheckPace(os, next, None, t);
    if outcome != Continue {
      CheckPace(os, next, Some(outcome.name), t);
      LaterPace(os, next, Stop(next, graceWaits), t);
    }
  }

  lemma DispatchPace(os: Os, st: Loop, wait: WaitResult, graceWaits: seq<WaitResult>, t: TimerDef)
    requires os.Valid() && os.MonotoneClock() && PaceInv(os, st, t)
    requires LoopInv(os, Reopened(st, wait), false) && Collected(st, wait)
    ensures PaceInv(os, Dispatch(os, st, wait, graceWaits), t)
  {
    if wait.Status? {
      if wait.status.StillAlive? {
        CheckPace(os, st, None, t);
      } else if IsExit(wait.status) {
        ReapPhase(os, st, wait, false);
        ReapPaced(os, Clocked(st.sched, st.sup.kernel), t, wait.status.pid);
        var next := AfterReap(os, st, wait.status.pid);
        if Reap(os, Clocked(st.sched, st.sup.kernel), wait.status.pid).1 {
          CheckPace(os, next, None, t);
        } else {
          SupervisePace(os, next, wait, graceWaits, t);
        }
      } else {
        SupervisePace(os, st, wait, graceWaits, t);
      }
    }
  }

  lemma WaitPace(os: Os, st: Loop, inp: Input, t: TimerDef)
    requires os.MonotoneClock() && LoopInv(os, st, false) && PaceInv(os, st, t)
    ensures PaceInv(os, Wait(os, st, inp), t)
  {
    var s := st.sup.(kernel := Collect(st.sup.kernel, inp.wait));
    ReceiveAllKeepsInv(os, s, inp.datagrams, |inp.datagrams|, st.sched.pending.Keys, false);
    LaterPace(os, st, Wait(os, st, inp), t);
  }

  lemma TurnPace(os: Os, st: Loop, inp: Input, t: TimerDef)
    requires os.Valid() && os.MonotoneClock() && !st.stopped && LoopInv(os, st, false) && GoodInput(inp)
    requires PaceInv(os, st, t) && (inp.reload.Some? ==> Fixed(t, inp.reload.value.1))
    ensures PaceInv(os, Turn(os, st, inp), t)
  {
    if inp.shutdown {
      LaterPace(os, st, Stop(st, inp.graceWaits), t);
    } else {
      PreparePhase(os, st, inp, false);
      PreparePace(os, st, inp, t);
      WaitPace(os, Prepare(os, st, inp), inp, t);
      LaterPace(os, Wait(os, Prepare(os, st, inp), inp), BeforeDispatch(os, st, inp), t);
      DispatchInv(os, st, inp);
      DispatchPace(os, BeforeDispatch(os, st, inp), inp.wait, inp.graceWaits, t);
    }
  }

  lemma StartPace(os: Os, st: Loop, t: TimerDef)
    requires st.sched == IDLE && Fixed(t, st.timerDefs)
    ensures PaceInv(os, st, t)
  {
  }

  /** Timer `t` has one definition throughout the run. */
  ghost predicate FixedInRun(t: TimerDef, trace: seq<Loop>, inputs: seq<Input>)
    requires |trace| > 0
  {
    && Fixed(t, trace[0].timerDefs)
    && forall i :: 0 <= i < |inputs| && inputs[i].reload.Some? ==> Fixed(t, inputs[i].reload.value.1)
  }

  lemma {:induction false} RunPace(os: Os, trace: seq<Loop>, inputs: seq<Input>, n: nat, t: TimerDef)
    requires GoodRun(os, trace, inputs, false) && n <= |inputs| && FixedInRun(t, trace, inputs)
    ensures PaceInv(os, trace[n], t)
  {
    if n == 0 {
      StartPace(os, trace[0], t);
    } else {
      RunPace(os, trace, inputs, n - 1, t);
      PaceNext(os, trace, inputs, n - 1, t);
    }
  }

  lemma PaceNext(os: Os, trace: seq<Loop>, inputs: seq<Input>, n: nat, t: TimerDef)
    requires GoodRun(os, trace, inputs, false) && n < |inputs| && FixedInRun(t, trace, inputs)
    requires PaceInv(os, trace[n], t)
    ensures PaceInv(os, trace[n + 1], t)
  {
    RunKeepsInv(os, trace, inputs, n, false);
    assert StepAt(os, trace, inputs, n);
    PaceStep(os, trace, inputs, n, t);
  }

  lemma PaceStep(os: Os, trace: seq<Loop>, inputs: seq<Input>, n: nat, t: TimerDef)
    requires os.Valid() && os.MonotoneClock() && n < |inputs| && n + 1 < |trace| && StepAt(os, trace, inputs, n)
    requires GoodInput(inputs[n]) && (trace[n].stopped || LoopInv(os, trace[n], false))
    requires PaceInv(os, trace[n], t) && (inputs[n].reload.Some? ==> Fixed(t, inputs[n].reload.value.1))
    ensures PaceInv(os, trace[n + 1], t)
  {
    if !trace[n].stopped {
      TurnPace(os, trace[n], inputs[n], t);
    }
  }

  /** Over any run in which timer `t` keeps its definition, across reloads: by any time T it has started at most
      1 + (T - boot - first delay) / interval times, and a timer without an interval at most once. */
  lemma TimerRate(os: Os, trace: seq<Loop>, inputs: seq<Input>, n: nat, s: Sched, t: TimerDef, T: Instant, m: nat)
    requires GoodRun(os, trace, inputs, false) && n <= |inputs| && FixedInRun(t, trace, inputs) && s == trace[n].sched
    requires s.boot.Some? && s.boot.value + FirstDelay(t) <= T
    requires m <= |At(s.starts, t.name)| && (m > 0 ==> At(s.starts, t.name)[m - 1] <= T)
    ensures t.onActive.Some? && t.onActive.value > 0 ==> m <= 1 + (T - s.boot.value - FirstDelay(t)) / t.onActive.value
    ensures t.onActive.None? ==> |At(s.starts, t.name)| <= 1
  {
    RunPace(os, trace, inputs, n, t);
    RateBound(s, t, os.clock(trace[n].sup.kernel.t), T, m);
  }
}
