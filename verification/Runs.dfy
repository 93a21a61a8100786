/** Invariants over every run of the event loop. */
module Runs {
  import opened Config
  import opened Machine
  import opened Supervision
  import opened Targets
  import opened Timers
  import opened EventLoop
  import opened Reconcile
  import opened Invariants

  /** At every head of the loop: the supervisor's invariant beside the pending timers, no timer overlapping
      itself, and uniquely named configurations. */
  ghost predicate LoopInv(os: Os, st: Loop, timely: bool) {
    && SupInv(os, st.sup, st.sched.pending.Keys, timely)
    && NoOverlap(Clocked(st.sched, st.sup.kernel))
    && UniqueNames(st.cfg.services)
    && UniqueTimers(st.timerDefs)
    && (st.watch.Some? ==> UniqueNames(st.watch.value.previous.services))
  }

  ghost predicate GoodInput(inp: Input) {
    inp.reload.Some? ==> UniqueNames(inp.reload.value.0.services) && UniqueTimers(inp.reload.value.1)
  }

  /** Every WATCHDOG=1 of this turn comes from the instance that is tracked when it is handled. */
  ghost predicate TimelyInput(os: Os, st: Loop, inp: Input) {
    forall d :: d in inp.datagrams ==> TimelyDatagram(Prepare(os, st, inp).sup.services, d)
  }

  lemma AdvanceInv(os: Os, s: SupState, n: nat, other: set<Pid>, timely: bool)
    requires os.MonotoneClock() && SupInv(os, s, other, timely)
    ensures SupInv(os, s.(kernel := s.kernel.Advance(n)), other, timely)
  {
    assert s.services - {} == s.services && s.notify.ForgetAll({}) == s.notify;
    DropKeepsInv(os, s, s.(kernel := s.kernel.Advance(n)), {}, {}, other, timely);
  }

  // ---------------------------------------------------------------- phase by phase

  lemma ReloadPhase(os: Os, st: Loop, newCfg: Configuration, newTimers: seq<TimerDef>, timely: bool)
    requires os.Valid() && os.MonotoneClock() && LoopInv(os, st, timely)
    requires UniqueNames(newCfg.services) && UniqueTimers(newTimers)
    ensures LoopInv(os, Reload(os, st, newCfg, newTimers), timely)
  {
    var defs := ServicesIn(newCfg.services, st.target);
    ReloadKeepsInv(os, st.sup, defs, st.sched.pending.Keys, timely);
    AdvanceInv(os, ReloadServices(os, st.sup, defs).sup, 1, st.sched.pending.Keys, timely);
  }

  lemma IsolatePhase(os: Os, st: Loop, name: string, timely: bool)
    requires os.Valid() && os.MonotoneClock() && LoopInv(os, st, timely)
    ensures LoopInv(os, Isolate(os, st, name), timely)
  {
    ReloadKeepsInv(os, st.sup, ServicesIn(st.cfg.services, name), st.sched.pending.Keys, timely);
  }

  lemma TickPhase(os: Os, st: Loop, timely: bool)
    requires os.Valid() && os.MonotoneClock() && LoopInv(os, st, timely)
    ensures LoopInv(os, TickTimers(os, st), timely)
  {
    var c := Clocked(st.sched, st.sup.kernel);
    TickNoOverlap(os, c, st.timerDefs, st.cfg.services);
    var c' := Tick(os, c, st.timerDefs, st.cfg.services);
    KernelGrows(os, st.sup, c'.kernel, st.sched.pending.Keys, c'.sched.pending.Keys, timely);
  }

  lemma KernelGrows(os: Os, s: SupState, k: Kernel, other: set<Pid>, other': set<Pid>, timely: bool)
    requires os.MonotoneClock() && SupInv(os, s, other, timely) && Grows(s.kernel, other, k, other')
    requires other' <= k.children
    ensures SupInv(os, s.(kernel := k), other', timely)
  {
    assert os.clock(s.kernel.t) <= os.clock(k.t);
    assert other' !! s.services.Keys;
  }

  lemma PreparePhase(os: Os, st: Loop, inp: Input, timely: bool)
    requires os.Valid() && os.MonotoneClock() && LoopInv(os, st, timely) && GoodInput(inp)
    ensures LoopInv(os, Prepare(os, st, inp), timely)
  {
    var reloaded := if inp.reload.Some? then Reload(os, st, inp.reload.value.0, inp.reload.value.1) else st;
    if inp.reload.Some? {
      ReloadPhase(os, st, inp.reload.value.0, inp.reload.value.1, timely);
    }
    var isolated := if inp.isolate.Some? then Isolate(os, reloaded, inp.isolate.value) else reloaded;
    if inp.isolate.Some? {
      IsolatePhase(os, reloaded, inp.isolate.value, timely);
    }
    TickPhase(os, isolated, timely);
  }

  /** The state with the pid just collected put back among the children. */
  function Reopened(st: Loop, wait: WaitResult): Loop {
    if wait.Status? && IsExit(wait.status) then
      st.(sup := st.sup.(kernel := st.sup.kernel.(children := st.sup.kernel.children + {wait.status.pid})))
    else st
  }

  ghost predicate Collected(st: Loop, wait: WaitResult) {
    wait.Status? && IsExit(wait.status) ==> wait.status.pid !in st.sup.kernel.children
  }

  lemma WaitPhase(os: Os, st: Loop, inp: Input, timely: bool)
    requires os.MonotoneClock() && LoopInv(os, st, timely)
    requires timely ==> forall d :: d in inp.datagrams ==> TimelyDatagram(st.sup.services, d)
    ensures var st' := Wait(os, st, inp);
            && LoopInv(os, Reopened(st', inp.wait), timely)
            && Collected(st', inp.wait)
            && SameDefs(st'.sup.services, st.sup.services)
  {
    var s := st.sup.(kernel := Collect(st.sup.kernel, inp.wait));
    ReceiveAllKeepsInv(os, s, inp.datagrams, |inp.datagrams|, st.sched.pending.Keys, timely);
  }

  lemma CheckPhase(os: Os, st: Loop, failed: Option<string>, timely: bool)
    requires os.Valid() && os.MonotoneClock() && LoopInv(os, st, timely)
    ensures LoopInv(os, CheckWatch(os, st, failed), timely)
  {
    if st.watch.Some? {
      if failed.Some? && failed.value in st.watch.value.touched {
        RollbackPhase(os, st, st.watch.value, failed.value, timely);
      } else {
        AdvanceInv(os, st.sup, 1, st.sched.pending.Keys, timely);
      }
    }
  }

  lemma RollbackPhase(os: Os, st: Loop, w: Watch, name: string, timely: bool)
    requires os.Valid() && os.MonotoneClock() && LoopInv(os, st, timely) && st.watch == Some(w) && name in w.touched
    ensures LoopInv(os, Check(os, st, w, Some(name)), timely)
  {
    ReloadKeepsInv(os, st.sup, ServicesIn(w.previous.services, w.target), st.sched.pending.Keys, timely);
  }

  /** After an exit that no timer claimed, handled by the supervisor. */
  lemma SupervisePhase(os: Os, st: Loop, wait: WaitResult, graceWaits: seq<WaitResult>, timely: bool)
    requires os.Valid() && os.MonotoneClock() && wait.Status?
    requires LoopInv(os, Reopened(st, wait), timely) && Collected(st, wait)
    requires IsExit(wait.status) ==> wait.status.pid !in st.sched.pending
    ensures var st' := Supervise(os, st, wait.status, graceWaits); st'.stopped || LoopInv(os, st', timely)
  {
    var (sup, outcome) := HandleExit(os, st.sup, wait.status);
    var next := st.(sup := sup);
    if IsExit(wait.status) && wait.status.pid in st.sup.services {
      ExitKeepsInv(os, st.sup, wait.status, st.sched.pending.Keys, timely);
    } else {
      assert sup == st.sup;
    }
    assert LoopInv(os, next, timely);
    match outcome
    case Continue => CheckPhase(os, next, None, timely);
    case GaveUp(name) => CheckPhase(os, next, Some(name), timely);
    case Halt(name) =>
      if st.watch.Some? && name in st.watch.value.touched {
        CheckPhase(os, next, Some(name), timely);
      }
  }

  lemma ReapPhase(os: Os, st: Loop, wait: WaitResult, timely: bool)
    requires os.MonotoneClock() && wait.Status? && IsExit(wait.status)
    requires LoopInv(os, Reopened(st, wait), timely) && Collected(st, wait)
    ensures var (c, handled) := Reap(os, Clocked(st.sched, st.sup.kernel), wait.status.pid);
            var next := st.(sched := c.sched, sup := st.sup.(kernel := c.kernel));
            if handled then LoopInv(os, next, timely)
            else
              && LoopInv(os, Reopened(next, wait), timely) && Collected(next, wait)
              && wait.status.pid !in next.sched.pending
  {
    var pid := wait.status.pid;
    var c := Clocked(st.sched, st.sup.kernel);
    ReapNoOverlap(os, c, pid);
    var (c', handled) := Reap(os, c, pid);
    assert os.clock(c.kernel.t) <= os.clock(c'.kernel.t);
    if !handled {
      assert st.sched.pending - {pid} == st.sched.pending;
    }
  }

  lemma DispatchPhase(os: Os, st: Loop, wait: WaitResult, graceWaits: seq<WaitResult>, timely: bool)
    requires os.Valid() && os.MonotoneClock()
    requires LoopInv(os, Reopened(st, wait), timely) && Collected(st, wait)
    ensures var st' := Dispatch(os, st, wait, graceWaits); st'.stopped || LoopInv(os, st', timely)
  {
    if wait.Status? {
      if wait.status.StillAlive? {
        CheckPhase(os, st, None, timely);
      } else if IsExit(wait.status) {
        ReapPhase(os, st, wait, timely);
        var (c, handled) := Reap(os, Clocked(st.sched, st.sup.kernel), wait.status.pid);
        var next := st.(sched := c.sched, sup := st.sup.(kernel := c.kernel));
        if handled {
          CheckPhase(os, next, None, timely);
        } else {
          SupervisePhase(os, next, wait, graceWaits, timely);
        }
      } else {
        SupervisePhase(os, st, wait, graceWaits, timely);
      }
    }
  }

  lemma TurnKeepsInv(os: Os, st: Loop, inp: Input, timely: bool)
    requires os.Valid() && os.MonotoneClock() && LoopInv(os, st, timely) && GoodInput(inp)
    requires timely ==> TimelyInput(os, st, inp)
    ensures var st' := Turn(os, st, inp); st'.stopped || LoopInv(os, st', timely)
  {
    if !st.stopped && !inp.shutdown {
      PreparePhase(os, st, inp, timely);
      var prepared := Prepare(os, st, inp);
      WaitPhase(os, prepared, inp, timely);
      var waited := Wait(os, prepared, inp);
      var looked := waited.(sup := waited.sup.(kernel := waited.sup.kernel.Advance(1)));
      LookPhase(os, waited, inp.wait, timely);
      DispatchPhase(os, looked, inp.wait, inp.graceWaits, timely);
    }
  }

  /** Reading the clock for the watchdog check. */
  lemma LookPhase(os: Os, st: Loop, wait: WaitResult, timely: bool)
    requires os.MonotoneClock() && LoopInv(os, Reopened(st, wait), timely) && Collected(st, wait)
    ensures var next := st.(sup := st.sup.(kernel := st.sup.kernel.Advance(1)));
            LoopInv(os, Reopened(next, wait), timely) && Collected(next, wait)
  {
    AdvanceInv(os, Reopened(st, wait).sup, 1, st.sched.pending.Keys, timely);
  }

  // ---------------------------------------------------------------- whole runs

  /** A state in which the loop may be entered, such as the one boot reaches. */
  ghost predicate Starts(os: Os, st: Loop) {
    LoopInv(os, st, true) && LoopInv(os, st, false) && st.watch.None? && !st.stopped && st.sched == IDLE
  }

  /** A run of the loop: uniquely named configurations and, where `timely`, datagrams from live instances. */
  ghost predicate GoodRun(os: Os, trace: seq<Loop>, inputs: seq<Input>, timely: bool) {
    && os.Valid() && os.MonotoneClock() && IsRun(os, trace, inputs) && Starts(os, trace[0])
    && (forall i :: 0 <= i < |inputs| ==> GoodInput(inputs[i]))
    && (timely ==> forall i :: 0 <= i < |inputs| ==> TimelyInput(os, trace[i], inputs[i]))
  }

  /** Booting any uniquely named configuration reaches such a state. */
  lemma BootedStarts(os: Os, cfg: Configuration, timers: seq<TimerDef>)
    requires os.Valid() && os.MonotoneClock() && UniqueNames(cfg.services) && UniqueTimers(timers)
    ensures Starts(os, Booted(os, cfg, timers))
  {
    ServicesInExact(cfg.services, cfg.defaultTarget);
    BootEstablishesInv(os, SupState(map[], Notify({}, map[]), Kernel(0, {})),
                       ServicesIn(cfg.services, cfg.defaultTarget));
  }

  lemma {:induction false} RunKeepsInv(os: Os, trace: seq<Loop>, inputs: seq<Input>, n: nat, timely: bool)
    requires GoodRun(os, trace, inputs, timely) && n <= |inputs|
    ensures trace[n].stopped || LoopInv(os, trace[n], timely)
  {
    if n == 0 {
    } else {
      RunKeepsInv(os, trace, inputs, n - 1, timely);
      StepTo(os, trace, inputs, n);
      if !trace[n - 1].stopped {
        TurnKeepsInv(os, trace[n - 1], inputs[n - 1], timely);
      }
    }
  }

  /** At every loop head of every run: supervised and pending-timer pids are children not yet reaped, the two
      tables share none, no name but the rescue shell's has two pids, and no timer overlaps itself. */
  lemma PidLayers(os: Os, trace: seq<Loop>, inputs: seq<Input>, n: nat)
    requires GoodRun(os, trace, inputs, false) && n <= |inputs|
    ensures var st := trace[n];
            !st.stopped ==>
              && st.sup.services.Keys <= st.sup.kernel.children
              && st.sched.pending.Keys <= st.sup.kernel.children
              && st.sup.services.Keys !! st.sched.pending.Keys
              && UniqueTracked(st.sup.services, if os.NoFallback() then {} else {SHELL})
              && st.sched.running == Busy(st.sched.pending)
              && (forall p, q :: p in st.sched.pending && q in st.sched.pending && p != q ==>
                                   st.sched.pending[p] != st.sched.pending[q])
  {
    RunKeepsInv(os, trace, inputs, n, false);
  }
}
