/** The reload transaction over whole runs (`src/rollback.rs`, `src/main.rs`). */
module Rollback {
  import opened Config
  import opened Machine
  import opened Supervision
  import opened Targets
  import opened Timers
  import opened EventLoop
  import opened Reconcile
  import opened Invariants
  import opened Runs

  /** The state in which the result of `waitpid` is dispatched. */
  function BeforeDispatch(os: Os, st: Loop, inp: Input): Loop {
    var waited := Wait(os, Prepare(os, st, inp), inp);
    waited.(sup := waited.sup.(kernel := waited.sup.kernel.Advance(1)))
  }

  /** The service whose exit reaches the supervisor in this turn. */
  ghost predicate Exits(st: Loop, wait: WaitResult) {
    && wait.Status? && IsExit(wait.status)
    && wait.status.pid !in st.sched.pending
    && wait.status.pid in st.sup.services
  }

  /** The supervisor's state once the timers declined the exit. */
  function AfterReap(os: Os, st: Loop, pid: Pid): Loop {
    var c := Reap(os, Clocked(st.sched, st.sup.kernel), pid).0;
    st.(sched := c.sched, sup := st.sup.(kernel := c.kernel))
  }

  /** The service dies for good: it is critical, or its restart budget is spent. */
  ghost predicate DiesForGood(os: Os, st: Loop, wait: WaitResult, name: string) {
    && Exits(st, wait)
    && st.sup.services[wait.status.pid].def.name == name
    && HandleExit(os, AfterReap(os, st, wait.status.pid).sup, wait.status).1 != Continue
  }

  lemma DispatchExit(os: Os, st: Loop, wait: WaitResult, graceWaits: seq<WaitResult>)
    requires Exits(st, wait)
    ensures Dispatch(os, st, wait, graceWaits) ==
            Supervise(os, AfterReap(os, st, wait.status.pid), wait.status, graceWaits)
  {
  }

  /** If a service touched by a held watch dies for good, that same turn ends with the configuration the watch
      remembers, no watch, no shutdown and an unchanged target, whatever the clock says; where spawns succeed,
      exactly the remembered services of the watched target are tracked, each once. */
  lemma RollbackTurn(os: Os, st: Loop, inp: Input, w: Watch, name: string)
    requires os.Valid() && os.MonotoneClock() && LoopInv(os, st, false) && GoodInput(inp)
    requires !st.stopped && !inp.shutdown
    requires BeforeDispatch(os, st, inp).watch == Some(w) && name in w.touched
    requires DiesForGood(os, BeforeDispatch(os, st, inp), inp.wait, name)
    ensures var st' := Turn(os, st, inp);
            && st'.cfg == w.previous && st'.watch == None && !st'.stopped
            && st'.target == BeforeDispatch(os, st, inp).target
            && st'.timerDefs == BeforeDispatch(os, st, inp).timerDefs
            && BroughtBack(os, st'.sup.services, ServicesIn(w.previous.services, w.target))
  {
    PreparePhase(os, st, inp, false);
    WaitPhase(os, Prepare(os, st, inp), inp, false);
    LookPhase(os, Wait(os, Prepare(os, st, inp), inp), inp.wait, false);
    RollbackDispatch(os, BeforeDispatch(os, st, inp), inp.wait, inp.graceWaits, w, name);
  }

  lemma RollbackDispatch(os: Os, st: Loop, wait: WaitResult, graceWaits: seq<WaitResult>, w: Watch, name: string)
    requires os.Valid() && os.MonotoneClock() && LoopInv(os, Reopened(st, wait), false) && Collected(st, wait)
    requires st.watch == Some(w) && name in w.touched && DiesForGood(os, st, wait, name)
    ensures var st' := Dispatch(os, st, wait, graceWaits);
            && st'.cfg == w.previous && st'.watch == None && st'.stopped == st.stopped
            && st'.target == st.target && st'.timerDefs == st.timerDefs
            && BroughtBack(os, st'.sup.services, ServicesIn(w.previous.services, w.target))
  {
    DispatchExit(os, st, wait, graceWaits);
    ReapPhase(os, st, wait, false);
    var next := AfterReap(os, st, wait.status.pid);
    var defs := ServicesIn(w.previous.services, w.target);
    var (sup, outcome) := HandleExit(os, next.sup, wait.status);
    ExitKeepsInv(os, next.sup, wait.status, next.sched.pending.Keys, false);
    ServicesInExact(w.previous.services, w.target);
    assert outcome == Halt(name) || outcome == GaveUp(name);
    if os.AlwaysStarts(defs) && Names(defs) !! Exempt(os) {
      ReloadRunsExactly(os, sup, defs, Exempt(os));
    }
  }

  /** A turn ends the loop exactly when shutdown is requested, or a critical service exits that no held watch
      touched. */
  lemma StopsExactly(os: Os, st: Loop, inp: Input)
    requires !st.stopped
    ensures Turn(os, st, inp).stopped <==>
            || inp.shutdown
            || var at := BeforeDispatch(os, st, inp);
               && Exits(at, inp.wait)
               && at.sup.services[inp.wait.status.pid].def.critical
               && (at.watch.None? || at.sup.services[inp.wait.status.pid].def.name !in at.watch.value.touched)
  {
    if !inp.shutdown {
      StopsAtDispatch(os, BeforeDispatch(os, st, inp), inp.wait, inp.graceWaits);
    }
  }

  lemma StopsAtDispatch(os: Os, st: Loop, wait: WaitResult, graceWaits: seq<WaitResult>)
    requires !st.stopped
    ensures Dispatch(os, st, wait, graceWaits).stopped <==>
            && Exits(st, wait)
            && st.sup.services[wait.status.pid].def.critical
            && (st.watch.None? || st.sup.services[wait.status.pid].def.name !in st.watch.value.touched)
  {
    if Exits(st, wait) {
      DispatchExit(os, st, wait, graceWaits);
    }
  }

  /** The exit is that of a service touched by the held watch that dies for good. */
  ghost predicate RollsBack(os: Os, st: Loop, wait: WaitResult) {
    && Exits(st, wait) && st.watch.Some?
    && var name := st.sup.services[wait.status.pid].def.name;
       name in st.watch.value.touched && DiesForGood(os, st, wait, name)
  }

  /** The state a rollback starts from: the dead service is out of the table, nothing else changed. */
  lemma RolledBackFrom(os: Os, st: Loop, wait: WaitResult, graceWaits: seq<WaitResult>) returns (gone: Loop)
    requires os.Valid() && os.MonotoneClock() && LoopInv(os, Reopened(st, wait), false) && Collected(st, wait)
    requires RollsBack(os, st, wait)
    ensures LoopInv(os, gone, false) && gone.watch == st.watch && gone.target == st.target && gone.cfg == st.cfg
    ensures gone.sup.services == st.sup.services - {wait.status.pid}
    ensures Dispatch(os, st, wait, graceWaits) ==
            Check(os, gone, st.watch.value, Some(st.sup.services[wait.status.pid].def.name))
  {
    DispatchExit(os, st, wait, graceWaits);
    ReapPhase(os, st, wait, false);
    var next := AfterReap(os, st, wait.status.pid);
    ExitKeepsInv(os, next.sup, wait.status, next.sched.pending.Keys, false);
    gone := next.(sup := HandleExit(os, next.sup, wait.status).0);
  }

  /** Handling a wait result without a rollback keeps configuration and target, and no service gets another
      definition. */
  lemma DispatchKeepsDefs(os: Os, st: Loop, wait: WaitResult, graceWaits: seq<WaitResult>)
    requires os.Valid() && os.MonotoneClock() && LoopInv(os, Reopened(st, wait), false) && Collected(st, wait)
    requires !RollsBack(os, st, wait) && !Dispatch(os, st, wait, graceWaits).stopped
    ensures var st' := Dispatch(os, st, wait, graceWaits);
            DefsFrom(st'.sup.services, st.sup.services) && st'.cfg == st.cfg && st'.target == st.target
  {
    if Exits(st, wait) {
      DispatchExit(os, st, wait, graceWaits);
      ReapPhase(os, st, wait, false);
      ExitKeepsDefs(os, AfterReap(os, st, wait.status.pid), wait, graceWaits);
    } else {
      DispatchNoExit(os, st, wait, graceWaits);
      SameDefsFrom(st.sup.services, st.sup.services);
    }
  }

  lemma ExitKeepsDefs(os: Os, st: Loop, wait: WaitResult, graceWaits: seq<WaitResult>)
    requires os.Valid() && os.MonotoneClock() && LoopInv(os, Reopened(st, wait), false)
    requires wait.Status? && IsExit(wait.status) && wait.status.pid in st.sup.services
    requires !Supervise(os, st, wait.status, graceWaits).stopped
    requires var outcome := HandleExit(os, st.sup, wait.status).1;
             outcome == Continue || st.watch.None? || outcome.name !in st.watch.value.touched
    ensures var st' := Supervise(os, st, wait.status, graceWaits);
            DefsFrom(st'.sup.services, st.sup.services) && st'.cfg == st.cfg && st'.target == st.target
  {
    SupervisedOnly(os, st, wait.status, graceWaits);
    ExitKeepsInv(os, st.sup, wait.status, st.sched.pending.Keys, false);
  }

  /** Without a rollback or a shutdown only the exit itself changes who runs. */
  lemma SupervisedOnly(os: Os, st: Loop, status: WaitStatus, graceWaits: seq<WaitResult>)
    requires !Supervise(os, st, status, graceWaits).stopped
    requires var outcome := HandleExit(os, st.sup, status).1;
             outcome == Continue || st.watch.None? || outcome.name !in st.watch.value.touched
    ensures var st' := Supervise(os, st, status, graceWaits);
            && st'.sup.services == HandleExit(os, st.sup, status).0.services
            && HandleExit(os, st.sup, status).0.kernel.t <= st'.sup.kernel.t
            && st'.cfg == st.cfg && st'.target == st.target
  {
    var (sup, outcome) := HandleExit(os, st.sup, status);
    var next := st.(sup := sup);
    CheckedOnly(os, next, None);
    if outcome != Continue {
      CheckedOnly(os, next, Some(outcome.name));
    }
  }

  lemma CheckedOnly(os: Os, st: Loop, failed: Option<string>)
    requires failed.None? || st.watch.None? || failed.value !in st.watch.value.touched
    ensures var st' := CheckWatch(os, st, failed);
            && st'.sup.services == st.sup.services && st.sup.kernel.t <= st'.sup.kernel.t
            && st'.cfg == st.cfg && st'.target == st.target
  {
  }

  lemma DispatchNoExit(os: Os, st: Loop, wait: WaitResult, graceWaits: seq<WaitResult>)
    requires !Exits(st, wait)
    ensures var st' := Dispatch(os, st, wait, graceWaits);
            && st'.sup.services == st.sup.services && st.sup.kernel.t <= st'.sup.kernel.t
            && st'.cfg == st.cfg && st'.target == st.target
  {
    CheckedOnly(os, st, None);
    if wait.Status? && IsExit(wait.status) {
      var next := AfterReap(os, st, wait.status.pid);
      CheckedOnly(os, next, None);
      assert wait.status.pid in st.sched.pending || HandleExit(os, next.sup, wait.status).1 == Continue;
    }
  }

  // ---------------------------------------------------------------- how a watch begins and ends

  /** A reload begins a watch on exactly the services it had to start, in listed order, for ten seconds; where
      spawns succeed the new configuration's services of the active target run. */
  lemma ReloadIsWatched(os: Os, st: Loop, newCfg: Configuration, newTimers: seq<TimerDef>, exempt: set<string>)
    requires os.Valid() && Owned(st.sup) && UniqueNames(newCfg.services)
    requires NoConfusion(os, st.sup.services, ServicesIn(newCfg.services, st.target), exempt)
    ensures var st' := Reload(os, st, newCfg, newTimers);
            var defs := ServicesIn(newCfg.services, st.target);
            && st'.watch.Some? && st'.watch.value.touched == Missing(st.sup.services, defs)
            && st'.sup.kernel.t > 0 && st'.watch.value.deadline == os.clock(st'.sup.kernel.t - 1) + 10 * SECOND
            && (os.AlwaysStarts(defs) ==> RunsExactly(st'.sup.services, defs))
  {
    assert UniqueNames(ServicesIn(newCfg.services, st.target)) by { ServicesInExact(newCfg.services, st.target); }
    ReloadRunsExactly(os, st.sup, ServicesIn(newCfg.services, st.target), exempt);
  }

  ghost predicate RunsExactly(services: Services, defs: seq<ServiceDef>) {
    (forall d :: d in defs <==> Holds(services, d)) && UniqueTracked(services, {})
  }

  /** Where spawns succeed and no rescue shell can be confused with one of them, exactly `defs` run. */
  ghost predicate BroughtBack(os: Os, services: Services, defs: seq<ServiceDef>) {
    os.AlwaysStarts(defs) && Names(defs) !! Exempt(os) ==> RunsExactly(services, defs)
  }

  lemma ReloadRunsExactly(os: Os, s: SupState, defs: seq<ServiceDef>, exempt: set<string>)
    requires os.Valid() && Owned(s) && UniqueNames(defs) && NoConfusion(os, s.services, defs, exempt)
    ensures var r := ReloadServices(os, s, defs);
            && r.touched == Missing(s.services, defs)
            && (os.AlwaysStarts(defs) ==> RunsExactly(r.sup.services, defs))
  {
    ReloadTouches(os, s, defs, exempt);
    if os.AlwaysStarts(defs) {
      var services := ReloadServices(os, s, defs).sup.services;
      forall p | p in services ensures services[p].def.name in Names(defs) {
        assert Holds(services, services[p].def);
      }
    }
  }

  /** Which clock reading judges a held watch when the wait result is handled without a rollback. */
  function JudgedAt(os: Os, st: Loop, wait: WaitResult): nat {
    if wait.Status? && IsExit(wait.status) then
      var next := AfterReap(os, st, wait.status.pid);
      if wait.status.pid in st.sched.pending then next.sup.kernel.t
      else HandleExit(os, next.sup, wait.status).0.kernel.t
    else st.sup.kernel.t
  }

  /** Handling the wait result ends the watch: a touched service dies for good, or a wait status is handled at or
      past the deadline. */
  ghost predicate EndsWatch(os: Os, st: Loop, wait: WaitResult, w: Watch) {
    RollsBack(os, st, wait) || (wait.Status? && w.deadline <= os.clock(JudgedAt(os, st, wait)))
  }

  /** What becomes of a held watch when a wait result is handled, exactly. */
  lemma WatchLasts(os: Os, st: Loop, wait: WaitResult, graceWaits: seq<WaitResult>, w: Watch)
    requires st.watch == Some(w) && !Dispatch(os, st, wait, graceWaits).stopped
    ensures var st' := Dispatch(os, st, wait, graceWaits);
            && st'.watch == (if EndsWatch(os, st, wait, w) then None else Some(w))
            && st'.cfg == (if RollsBack(os, st, wait) then w.previous else st.cfg)
  {
    if Exits(st, wait) {
      DispatchExit(os, st, wait, graceWaits);
    }
  }

  lemma JudgedLater(os: Os, st: Loop, wait: WaitResult)
    ensures st.sup.kernel.t <= JudgedAt(os, st, wait)
  {
  }

  /** The watch a reload leaves, and what the turns since then made of it: it is held exactly if none of them, the
      reload's own included, ended it. */
  lemma {:induction false} WatchHeldExactly(os: Os, trace: seq<Loop>, inputs: seq<Input>, k: nat, n: nat)
    requires IsRun(os, trace, inputs) && LatestReload(inputs, k, n) && !trace[n].stopped
    ensures trace[n].watch ==
            if exists i :: k <= i < n && TurnEnds(os, trace, inputs, i, Began(os, trace, inputs, k)) then None
            else Some(Began(os, trace, inputs, k))
    decreases n
  {
    StepTo(os, trace, inputs, n);
    var w, at := Began(os, trace, inputs, k), BeforeDispatch(os, trace[n - 1], inputs[n - 1]);
    if n - 1 > k {
      WatchHeldExactly(os, trace, inputs, k, n - 1);
      PrepareKeepsWatch(os, trace[n - 1], inputs[n - 1]);
    }
    if at.watch == Some(w) {
      WatchLasts(os, at, inputs[n - 1].wait, inputs[n - 1].graceWaits, w);
      assert TurnEnds(os, trace, inputs, n - 1, w) <==> EndsWatch(os, at, inputs[n - 1].wait, w);
    } else {
      KeptWatch(os, at, inputs[n - 1].wait, inputs[n - 1].graceWaits);
    }
  }

  /** Turn `k` is the latest reload of the first `n` turns. */
  ghost predicate LatestReload(inputs: seq<Input>, k: nat, n: nat) {
    k < n <= |inputs| && inputs[k].reload.Some? && forall i :: k < i < n ==> inputs[i].reload.None?
  }

  /** The watch that the reload of turn `k` began. */
  ghost function Began(os: Os, trace: seq<Loop>, inputs: seq<Input>, k: nat): Watch
    requires k < |inputs| && k < |trace| && inputs[k].reload.Some?
  {
    Reload(os, trace[k], inputs[k].reload.value.0, inputs[k].reload.value.1).watch.value
  }

  ghost predicate TurnEnds(os: Os, trace: seq<Loop>, inputs: seq<Input>, i: nat, w: Watch)
    requires i < |inputs| && i < |trace|
  {
    EndsWatch(os, BeforeDispatch(os, trace[i], inputs[i]), inputs[i].wait, w)
  }

  /** A watch still held although its deadline had passed at some earlier loop head: no turn since then got a status
      out of `waitpid`. */
  lemma HeldPastDeadline(os: Os, trace: seq<Loop>, inputs: seq<Input>, k: nat, m: nat, n: nat, i: nat)
    requires GoodRun(os, trace, inputs, false) && LatestReload(inputs, k, n) && k < m <= i < n
    requires !trace[n].stopped && trace[n].watch.Some?
    requires trace[n].watch.value.deadline <= os.clock(trace[m].sup.kernel.t)
    ensures !inputs[i].wait.Status?
  {
    var w := Began(os, trace, inputs, k);
    WatchHeldExactly(os, trace, inputs, k, n);
    assert !TurnEnds(os, trace, inputs, i, w);
    NotStoppedBefore(os, trace, inputs, i, n);
    LaterHeads(os, trace, inputs, k, m, i, n);
    InRun(os, trace, inputs, i);
    BeforeDispatchLater(os, trace[i], inputs[i]);
    JudgedLater(os, BeforeDispatch(os, trace[i], inputs[i]), inputs[i].wait);
    assert os.clock(trace[m].sup.kernel.t) <=
           os.clock(JudgedAt(os, BeforeDispatch(os, trace[i], inputs[i]), inputs[i].wait));
  }

  lemma {:induction false} NotStoppedBefore(os: Os, trace: seq<Loop>, inputs: seq<Input>, i: nat, n: nat)
    requires IsRun(os, trace, inputs) && i <= n <= |inputs| && !trace[n].stopped
    ensures !trace[i].stopped
    decreases n
  {
    if i < n {
      StepTo(os, trace, inputs, n);
      NotStoppedBefore(os, trace, inputs, i, n - 1);
    }
  }

  lemma BeforeDispatchLater(os: Os, st: Loop, inp: Input)
    requires os.Valid() && os.MonotoneClock() && LoopInv(os, st, false) && inp.reload.None?
    ensures st.sup.kernel.t <= BeforeDispatch(os, st, inp).sup.kernel.t
  {
    var isolated := if inp.isolate.Some? then Isolate(os, st, inp.isolate.value) else st;
    if inp.isolate.Some? {
      IsolatePhase(os, st, inp.isolate.value, false);
      ServicesInExact(st.cfg.services, inp.isolate.value);
      ReloadConforms(os, st.sup, ServicesIn(st.cfg.services, inp.isolate.value));
    }
    TickNoOverlap(os, Clocked(isolated.sched, isolated.sup.kernel), isolated.timerDefs, isolated.cfg.services);
    PreparePhase(os, st, inp, false);
    var prepared := Prepare(os, st, inp);
    var s := prepared.sup.(kernel := Collect(prepared.sup.kernel, inp.wait));
    ReceiveAllKeepsInv(os, s, inp.datagrams, |inp.datagrams|, prepared.sched.pending.Keys, false);
  }

  /** While a watch is held the clock index only grows from loop head to loop head. */
  lemma {:induction false} LaterHeads(os: Os, trace: seq<Loop>, inputs: seq<Input>, k: nat, m: nat, i: nat, n: nat)
    requires GoodRun(os, trace, inputs, false) && LatestReload(inputs, k, n) && k < m <= i <= n
    requires !trace[n].stopped && trace[n].watch.Some?
    ensures trace[m].sup.kernel.t <= trace[i].sup.kernel.t
    decreases i
  {
    if m < i {
      LaterHeads(os, trace, inputs, k, m, i - 1, n);
      NotStoppedBefore(os, trace, inputs, i - 1, n);
      NotStoppedBefore(os, trace, inputs, i, n);
      InRun(os, trace, inputs, i - 1);
      BeforeDispatchLater(os, trace[i - 1], inputs[i - 1]);
      WatchHeldExactly(os, trace, inputs, k, n);
      assert !TurnEnds(os, trace, inputs, i - 1, Began(os, trace, inputs, k));
      StepTo(os, trace, inputs, i);
      DispatchLater(os, BeforeDispatch(os, trace[i - 1], inputs[i - 1]), inputs[i - 1].wait, inputs[i - 1].graceWaits);
    }
  }

  lemma DispatchLater(os: Os, st: Loop, wait: WaitResult, graceWaits: seq<WaitResult>)
    requires !RollsBack(os, st, wait) && !Dispatch(os, st, wait, graceWaits).stopped
    ensures st.sup.kernel.t <= Dispatch(os, st, wait, graceWaits).sup.kernel.t
  {
    if Exits(st, wait) {
      DispatchExit(os, st, wait, graceWaits);
      SupervisedOnly(os, AfterReap(os, st, wait.status.pid), wait.status, graceWaits);
    } else {
      DispatchNoExit(os, st, wait, graceWaits);
    }
  }

  // ---------------------------------------------------------------- what a watch remembers

  /** Turn `k`, entered in state `before`, is the latest reload of the first `n` turns, and the watch `w` held
      in state `st` is the one it left. */
  ghost predicate BeganAt(inputs: seq<Input>, n: nat, k: nat, before: Loop, st: Loop, w: Watch)
    requires n <= |inputs|
  {
    && k < n
    && inputs[k].reload.Some?
    && (forall i :: k < i < n ==> inputs[i].reload.None?)
    && w.previous == before.cfg
    && w.target == before.target
    && st.cfg == inputs[k].reload.value.0
    && st.timerDefs == inputs[k].reload.value.1
  }

  /** What one turn does to the configuration and the watch. */
  lemma TurnWatch(os: Os, st: Loop, inp: Input)
    requires Turn(os, st, inp).watch.Some? && !Turn(os, st, inp).stopped
    ensures var st', w := Turn(os, st, inp), Turn(os, st, inp).watch.value;
            if inp.reload.Some? then
              && w.previous == st.cfg && w.target == st.target
              && st'.cfg == inp.reload.value.0 && st'.timerDefs == inp.reload.value.1
            else st.watch == Some(w) && st'.cfg == st.cfg && st'.timerDefs == st.timerDefs
  {
    KeptWatch(os, BeforeDispatch(os, st, inp), inp.wait, inp.graceWaits);
  }

  ghost predicate KeepsWatch(st: Loop, st': Loop) {
    && st'.timerDefs == st.timerDefs
    && st'.target == st.target
    && (st'.watch.Some? ==> st'.watch == st.watch && st'.cfg == st.cfg)
  }

  lemma CheckKeepsWatch(os: Os, st: Loop, failed: Option<string>)
    ensures KeepsWatch(st, CheckWatch(os, st, failed))
  {
  }

  lemma SuperviseKeepsWatch(os: Os, st: Loop, status: WaitStatus, graceWaits: seq<WaitResult>)
    ensures KeepsWatch(st, Supervise(os, st, status, graceWaits))
  {
    var (sup, outcome) := HandleExit(os, st.sup, status);
    CheckKeepsWatch(os, st.(sup := sup), None);
    if outcome != Continue {
      CheckKeepsWatch(os, st.(sup := sup), Some(outcome.name));
    }
  }

  lemma KeptWatch(os: Os, st: Loop, wait: WaitResult, graceWaits: seq<WaitResult>)
    ensures KeepsWatch(st, Dispatch(os, st, wait, graceWaits))
  {
    if wait.Status? {
      CheckKeepsWatch(os, st, None);
      if IsExit(wait.status) {
        CheckKeepsWatch(os, AfterReap(os, st, wait.status.pid), None);
        SuperviseKeepsWatch(os, AfterReap(os, st, wait.status.pid), wait.status, graceWaits);
      } else {
        SuperviseKeepsWatch(os, st, wait.status, graceWaits);
      }
    }
  }

  /** While a watch is held, in any run, it remembers the configuration and target in force just before the
      latest reload, turn `k`, and the configuration and timers in force are the ones that reload loaded. */
  lemma {:induction false} WatchRemembers(os: Os, trace: seq<Loop>, inputs: seq<Input>, n: nat) returns (k: nat)
    requires IsRun(os, trace, inputs) && n <= |inputs| && trace[0].watch.None?
    requires trace[n].watch.Some? && !trace[n].stopped
    ensures k < n && BeganAt(inputs, n, k, trace[k], trace[n], trace[n].watch.value)
  {
    k := n - 1;
    StepTo(os, trace, inputs, n);
    TurnWatch(os, trace[n - 1], inputs[n - 1]);
    if inputs[n - 1].reload.None? {
      k := WatchRemembers(os, trace, inputs, n - 1);
    }
  }

  /** In any run: when a service touched by the held watch dies for good, the next state has the configuration in
      force just before the latest reload, turn `k`, no watch and no shutdown and, where spawns succeed, runs
      exactly what that configuration has in the target active then. The timer definitions and the target are not
      brought back: they stay those the failed reload loaded and those in force when the exit is handled. */
  lemma RollbackRestores(os: Os, trace: seq<Loop>, inputs: seq<Input>, n: nat, name: string) returns (k: nat)
    requires GoodRun(os, trace, inputs, false) && n < |inputs| && TouchedDies(os, trace[n], inputs[n], name)
    ensures k < n && inputs[k].reload.Some? && forall i :: k < i <= n ==> inputs[i].reload.None?
    ensures Undone(os, trace[k], trace[n + 1], inputs[k].reload.value.1)
    ensures trace[n + 1].target == BeforeDispatch(os, trace[n], inputs[n]).target
  {
    InRun(os, trace, inputs, n);
    k := WatchRemembers(os, trace, inputs, n);
    assert StepAt(os, trace, inputs, n);
    RollbackStep(os, trace, inputs, n, trace[k], name, inputs[k].reload.value.1);
  }

  lemma RollbackStep(os: Os, trace: seq<Loop>, inputs: seq<Input>, n: nat, before: Loop, name: string,
                     timers: seq<TimerDef>)
    requires n < |inputs| && n + 1 < |trace| && StepAt(os, trace, inputs, n)
    requires os.Valid() && os.MonotoneClock() && LoopInv(os, trace[n], false) && GoodInput(inputs[n])
    requires TouchedDies(os, trace[n], inputs[n], name) && trace[n].timerDefs == timers
    requires trace[n].watch.value.previous == before.cfg && trace[n].watch.value.target == before.target
    ensures Undone(os, before, trace[n + 1], timers)
    ensures trace[n + 1].target == BeforeDispatch(os, trace[n], inputs[n]).target
  {
    RollbackUndoes(os, trace[n], inputs[n], before, trace[n + 1], name, timers);
  }

  /** A turn without a new reload in which a service touched by the held watch dies for good. */
  ghost predicate TouchedDies(os: Os, st: Loop, inp: Input, name: string) {
    && !st.stopped && st.watch.Some? && name in st.watch.value.touched
    && inp.reload.None? && !inp.shutdown
    && DiesForGood(os, BeforeDispatch(os, st, inp), inp.wait, name)
  }

  /** `after` is back to the configuration of `before`, but for the timers. */
  ghost predicate Undone(os: Os, before: Loop, after: Loop, timers: seq<TimerDef>) {
    && after.cfg == before.cfg && after.watch == None && !after.stopped
    && after.timerDefs == timers
    && BroughtBack(os, after.sup.services, ServicesIn(before.cfg.services, before.target))
  }

  lemma InRun(os: Os, trace: seq<Loop>, inputs: seq<Input>, n: nat)
    requires GoodRun(os, trace, inputs, false) && n < |inputs| && !trace[n].stopped
    ensures LoopInv(os, trace[n], false) && GoodInput(inputs[n])
  {
    RunKeepsInv(os, trace, inputs, n, false);
  }

  lemma RollbackUndoes(os: Os, st: Loop, inp: Input, before: Loop, after: Loop, name: string, timers: seq<TimerDef>)
    requires os.Valid() && os.MonotoneClock() && LoopInv(os, st, false) && GoodInput(inp)
    requires TouchedDies(os, st, inp, name) && after == Turn(os, st, inp)
    requires st.watch.value.previous == before.cfg && st.watch.value.target == before.target && st.timerDefs == timers
    ensures Undone(os, before, after, timers) && after.target == BeforeDispatch(os, st, inp).target
  {
    PrepareKeepsWatch(os, st, inp);
    RollbackTurn(os, st, inp, st.watch.value, name);
  }

  lemma PrepareKeepsWatch(os: Os, st: Loop, inp: Input)
    requires inp.reload.None?
    ensures BeforeDispatch(os, st, inp).watch == st.watch
    ensures BeforeDispatch(os, st, inp).timerDefs == st.timerDefs
  {
  }
}
