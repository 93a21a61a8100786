/** What one turn of the loop does, operation by operation, in terms of configurations and exits. */
module Effects {
  import opened Config
  import opened Graphs
  import opened Machine
  import opened Supervision
  import opened Folding
  import opened Ordering
  import opened BootTheorems
  import opened Backoff
  import opened Targets
  import opened Timers
  import opened Ticks
  import opened EventLoop
  import opened Reconcile
  import opened Invariants
  import opened Runs
  import opened Rollback
  import opened Entries

  // ---------------------------------------------------------------- bringing up a target

  /** The system starts every service of the target. */
  ghost predicate TargetStarts(os: Os, all: seq<ServiceDef>, target: string) {
    forall t, d, kids :: d in all && d.target == target ==> os.spawn(t, d, kids).Started?
  }

  /** No service of the target shares its name with rescue shells. */
  ghost predicate TargetApart(os: Os, all: seq<ServiceDef>, target: string) {
    forall d :: d in all && d.target == target ==> d.name !in Exempt(os)
  }

  ghost predicate Wanted(all: seq<ServiceDef>, target: string, d: ServiceDef) {
    d in all && d.target == target
  }

  /** The services of the target are brought up: those that ran as defined stay as they were, every other entry is
      started afresh, nothing else runs but rescue shells, and where the system starts them all of them run. */
  ghost predicate BringsUp(os: Os, before: SupState, after: SupState, all: seq<ServiceDef>, target: string) {
    && (forall p :: p in before.services && Wanted(all, target, before.services[p].def) ==>
          p in after.services && after.services[p] == before.services[p])
    && (forall p :: p in after.services ==>
          || (p in before.services && after.services[p] == before.services[p])
          || (Afresh(after.services[p]) && Newborn(os, before.kernel.t, after.kernel.t, after.services[p])))
    && (forall p :: p in after.services ==>
          || Wanted(all, target, after.services[p].def)
          || (after.services[p].def == FallbackShell() && !os.NoFallback()))
    && (TargetStarts(os, all, target) ==> forall d :: Wanted(all, target, d) <==> Holds(after.services, d))
  }

  lemma ReloadBringsUp(os: Os, s: SupState, all: seq<ServiceDef>, target: string)
    requires os.Valid() && Owned(s) && UniqueTracked(s.services, Exempt(os)) && UniqueNames(all)
    requires TargetApart(os, all, target)
    ensures BringsUp(os, s, ReloadServices(os, s, ServicesIn(all, target)).sup, all, target)
  {
    ReloadGrown(os, s, ServicesIn(all, target));
    ReloadKeepsWanted(os, s, all, target);
  }

  lemma ReloadKeepsWanted(os: Os, s: SupState, all: seq<ServiceDef>, target: string)
    requires os.Valid() && Owned(s) && UniqueTracked(s.services, Exempt(os)) && UniqueNames(all)
    requires TargetApart(os, all, target)
    ensures var after := ReloadServices(os, s, ServicesIn(all, target)).sup.services;
            && (forall p :: p in s.services && Wanted(all, target, s.services[p].def) ==>
                  p in after && after[p] == s.services[p])
            && (forall p :: p in after ==>
                  Wanted(all, target, after[p].def) || (after[p].def == FallbackShell() && !os.NoFallback()))
            && (TargetStarts(os, all, target) ==> forall d :: Wanted(all, target, d) <==> Holds(after, d))
  {
    var defs := ServicesIn(all, target);
    ServicesInExact(all, target);
    ReloadTouches(os, s, defs, Exempt(os));
    if TargetStarts(os, all, target) {
      assert os.AlwaysStarts(defs);
    }
    var after := ReloadServices(os, s, defs).sup.services;
    forall p | p in after
      ensures Wanted(all, target, after[p].def) || (after[p].def == FallbackShell() && !os.NoFallback())
    {
      assert after[p].def in defs || Rescue(os, after[p], defs, Exempt(os));
    }
  }

  // ---------------------------------------------------------------- requests

  /** An isolate to a target that no service has changes nothing; any other one makes it the active target and brings
      its services up. */
  ghost predicate IsolateDone(os: Os, st: Loop, st': Loop, name: string) {
    if exists d :: d in st.cfg.services && d.target == name then
      && st' == st.(sup := st'.sup, target := name)
      && (TargetApart(os, st.cfg.services, name) ==> BringsUp(os, st.sup, st'.sup, st.cfg.services, name))
    else st' == st
  }

  lemma IsolateExact(os: Os, st: Loop, name: string)
    requires os.Valid() && Owned(st.sup) && UniqueTracked(st.sup.services, Exempt(os)) && UniqueNames(st.cfg.services)
    ensures IsolateDone(os, st, Isolate(os, st, name), name)
  {
    if TargetApart(os, st.cfg.services, name) {
      ReloadBringsUp(os, st.sup, st.cfg.services, name);
    }
  }

  /** A reload puts the new configuration and timers in force, brings up the services of the active target and watches,
      for ten seconds, with the configuration and target it found. */
  ghost predicate ReloadDone(os: Os, st: Loop, st': Loop, newCfg: Configuration, newTimers: seq<TimerDef>) {
    && st'.cfg == newCfg && st'.timerDefs == newTimers
    && st'.target == st.target && st'.sched == st.sched && st'.stopped == st.stopped
    && st'.watch.Some? && st'.watch.value.previous == st.cfg && st'.watch.value.target == st.target
    && st'.sup.kernel.t > 0 && st'.watch.value.deadline == os.clock(st'.sup.kernel.t - 1) + 10 * SECOND
    && (TargetApart(os, newCfg.services, st.target) ==>
          && BringsUp(os, st.sup, st'.sup, newCfg.services, st.target)
          && forall x :: x in st'.watch.value.touched <==> ToStart(newCfg.services, st.target, st.sup.services, x))
  }

  /** A service of the target has this name and does not run as defined. */
  ghost predicate ToStart(all: seq<ServiceDef>, target: string, services: Services, x: string) {
    exists d :: Wanted(all, target, d) && d.name == x && !Holds(services, d)
  }

  lemma {:induction false} MissingExact(services: Services, defs: seq<ServiceDef>, x: string)
    ensures x in Missing(services, defs) <==> exists d :: d in defs && d.name == x && !Holds(services, d)
  {
    if defs == [] {
    } else {
      var init, last := defs[..|defs| - 1], defs[|defs| - 1];
      MissingExact(services, init, x);
      assert defs == init + [last];
    }
  }

  lemma ReloadRequest(os: Os, st: Loop, newCfg: Configuration, newTimers: seq<TimerDef>)
    requires os.Valid() && Owned(st.sup) && UniqueTracked(st.sup.services, Exempt(os)) && UniqueNames(newCfg.services)
    ensures ReloadDone(os, st, Reload(os, st, newCfg, newTimers), newCfg, newTimers)
  {
    if TargetApart(os, newCfg.services, st.target) {
      ReloadBringsUp(os, st.sup, newCfg.services, st.target);
      TouchedExact(os, st.sup, newCfg.services, st.target);
    }
  }

  lemma TouchedExact(os: Os, s: SupState, all: seq<ServiceDef>, target: string)
    requires os.Valid() && Owned(s) && UniqueTracked(s.services, Exempt(os)) && UniqueNames(all)
    requires TargetApart(os, all, target)
    ensures forall x :: x in ReloadServices(os, s, ServicesIn(all, target)).touched <==>
                        ToStart(all, target, s.services, x)
  {
    var defs := ServicesIn(all, target);
    ServicesInExact(all, target);
    ReloadTouches(os, s, defs, Exempt(os));
    forall x ensures x in Missing(s.services, defs) <==> ToStart(all, target, s.services, x) {
      MissingExact(s.services, defs, x);
      if d :| d in defs && d.name == x && !Holds(s.services, d) {
        assert Wanted(all, target, d);
      }
    }
  }

  /** What the services reported is forgotten for every name stopped, restarted or started, and for no other. */
  lemma ReloadForgets(os: Os, s: SupState, defs: seq<ServiceDef>, x: string)
    ensures var r := ReloadServices(os, s, defs);
            && (x in r.sup.notify.ready <==>
                x in s.notify.ready && x !in r.touched && (Tracks(s.services, x) ==> x in Names(defs)))
            && (x in r.sup.notify.pings <==>
                x in s.notify.pings && x !in r.touched && (Tracks(s.services, x) ==> x in Names(defs)))
            && (x in r.sup.notify.pings ==> r.sup.notify.pings[x] == s.notify.pings[x])
  {
    var s1 := StopAll(os, s, Stale(s, defs));
    LoopForgets(os, s1, defs, |defs|, x);
    assert x in NamesOf(s.services, Stale(s, defs)) <==> Tracks(s.services, x) && x !in Names(defs);
  }

  lemma {:induction false} LoopForgets(os: Os, s: SupState, defs: seq<ServiceDef>, n: nat, x: string)
    requires n <= |defs|
    ensures var r := ReloadLoop(os, s, defs, n);
            && (x in r.sup.notify.ready <==> x in s.notify.ready && x !in r.touched)
            && (x in r.sup.notify.pings <==> x in s.notify.pings && x !in r.touched)
            && (x in r.sup.notify.pings ==> r.sup.notify.pings[x] == s.notify.pings[x])
  {
    if n == 0 {
    } else {
      LoopForgets(os, s, defs, n - 1, x);
      OneForgets(os, ReloadLoop(os, s, defs, n - 1).sup, defs[n - 1], x);
    }
  }

  lemma OneForgets(os: Os, s: SupState, d: ServiceDef, x: string)
    ensures var r := ReloadOne(os, s, d);
            && (x in r.sup.notify.ready <==> x in s.notify.ready && x !in r.touched)
            && (x in r.sup.notify.pings <==> x in s.notify.pings && x !in r.touched)
            && (x in r.sup.notify.pings ==> r.sup.notify.pings[x] == s.notify.pings[x])
  {
  }

  // ---------------------------------------------------------------- up to the dispatch of a turn

  /** Between the requests and the dispatch only timers and datagrams do something. */
  ghost predicate Carried(asked: Loop, at: Loop) {
    && SameButHeard(asked.sup.services, at.sup.services)
    && at.cfg == asked.cfg && at.target == asked.target && at.timerDefs == asked.timerDefs
    && at.watch == asked.watch && at.stopped == asked.stopped
  }

  ghost predicate ReloadAsked(os: Os, st: Loop, inp: Input, mid: Loop) {
    if inp.reload.Some? then ReloadDone(os, st, mid, inp.reload.value.0, inp.reload.value.1) else mid == st
  }

  ghost predicate IsolateAsked(os: Os, mid: Loop, inp: Input, asked: Loop) {
    if inp.isolate.Some? then IsolateDone(os, mid, asked, inp.isolate.value) else asked == mid
  }

  /** The requests of a turn are carried out, a reload first, and reach its dispatch. */
  ghost predicate RequestsDone(os: Os, st: Loop, inp: Input, at: Loop) {
    exists mid, asked :: ReloadAsked(os, st, inp, mid) && IsolateAsked(os, mid, inp, asked) && Carried(asked, at)
  }

  lemma TurnRequests(os: Os, st: Loop, inp: Input)
    requires os.Valid() && os.MonotoneClock() && LoopInv(os, st, false) && GoodInput(inp)
    ensures RequestsDone(os, st, inp, BeforeDispatch(os, st, inp))
  {
    var mid := if inp.reload.Some? then Reload(os, st, inp.reload.value.0, inp.reload.value.1) else st;
    if inp.reload.Some? {
      ReloadRequest(os, st, inp.reload.value.0, inp.reload.value.1);
      ReloadPhase(os, st, inp.reload.value.0, inp.reload.value.1, false);
    }
    var asked, at := AfterRequests(os, st, inp), BeforeDispatch(os, st, inp);
    if inp.isolate.Some? {
      IsolateExact(os, mid, inp.isolate.value);
    }
    WaitSame(os, Prepare(os, st, inp), inp);
    assert ReloadAsked(os, st, inp, mid) && IsolateAsked(os, mid, inp, asked) && Carried(asked, at);
  }

  /** Timer `x` was started once by the turn exactly if it is due, judged at a reading of the turn. */
  ghost predicate TickLaw(os: Os, c: Clocked, b: Clocked, timers: seq<TimerDef>, services: seq<ServiceDef>, x: string) {
    && OnlySpawned(os, c, b, services)
    && (forall j :: 0 <= j < |timers| && timers[j].name == x ==>
          StartsLaw(os, c, b, x, StartsNow(os, c, timers, services, j)))
    && ((forall j :: 0 <= j < |timers| ==> timers[j].name != x) ==> StartsLaw(os, c, b, x, false))
  }

  ghost predicate TickedFrom(os: Os, st: Loop, at: Loop, k: Kernel) {
    && st.sup.kernel.t <= k.t <= at.sup.kernel.t
    && forall x :: TickLaw(os, Clocked(st.sched, k), Clocked(at.sched, at.sup.kernel), at.timerDefs, at.cfg.services, x)
  }

  /** Up to the dispatch of a turn the timers in force after its requests were ticked, once. */
  ghost predicate TicksDone(os: Os, st: Loop, at: Loop) {
    exists k :: TickedFrom(os, st, at, k)
  }

  lemma TurnTicks(os: Os, st: Loop, inp: Input)
    requires os.Valid() && os.MonotoneClock() && LoopInv(os, st, false) && GoodInput(inp)
    requires os.AlwaysStarts(BeforeDispatch(os, st, inp).cfg.services)
    ensures TicksDone(os, st, BeforeDispatch(os, st, inp))
  {
    RequestsGrown(os, st, inp);
    RequestsInv(os, st, inp);
    WaitSame(os, Prepare(os, st, inp), inp);
    var asked, at := AfterRequests(os, st, inp), BeforeDispatch(os, st, inp);
    var c := Clocked(st.sched, asked.sup.kernel);
    TickLater(os, c, at.timerDefs, at.cfg.services);
    forall x ensures TickLaw(os, c, Clocked(at.sched, at.sup.kernel), at.timerDefs, at.cfg.services, x) {
      TickExact(os, c, at.timerDefs, at.cfg.services, x);
      TickLawLater(os, c, Tick(os, c, at.timerDefs, at.cfg.services), Clocked(at.sched, at.sup.kernel), at.timerDefs,
                   at.cfg.services, x);
    }
    assert TickedFrom(os, st, at, asked.sup.kernel);
  }

  lemma RequestsInv(os: Os, st: Loop, inp: Input)
    requires os.Valid() && os.MonotoneClock() && LoopInv(os, st, false) && GoodInput(inp)
    ensures LoopInv(os, AfterRequests(os, st, inp), false)
    ensures AfterRequests(os, st, inp).sched == st.sched
  {
    var mid := if inp.reload.Some? then Reload(os, st, inp.reload.value.0, inp.reload.value.1) else st;
    if inp.reload.Some? {
      ReloadPhase(os, st, inp.reload.value.0, inp.reload.value.1, false);
    }
    if inp.isolate.Some? {
      IsolatePhase(os, mid, inp.isolate.value, false);
    }
  }

  lemma TickLawLater(os: Os, c: Clocked, b: Clocked, later: Clocked, timers: seq<TimerDef>, services: seq<ServiceDef>,
                     x: string)
    requires TickLaw(os, c, b, timers, services, x) && later.sched == b.sched && b.kernel.t <= later.kernel.t
    ensures TickLaw(os, c, later, timers, services, x)
  {
    forall p | p in later.sched.pending && !(p in c.sched.pending && later.sched.pending[p] == c.sched.pending[p])
      ensures SpawnedFor(os, c.kernel.t, later.kernel.t, services, p, later.sched.pending[p])
    {
      assert SpawnedFor(os, c.kernel.t, b.kernel.t, services, p, b.sched.pending[p]);
    }
  }

  // ---------------------------------------------------------------- the dispatch of a turn

  /** The tracked service whose exit is handled is started again, its restarts one more, exactly if its policy asks
      for it, this is not the sixth restart within ten seconds and the system starts it; otherwise it is gone. No other
      entry changes. */
  ghost predicate ExitDone(os: Os, at: Loop, status: WaitStatus, after: Services)
    requires IsExit(status) && status.pid in at.sup.services
  {
    var e, t := at.sup.services[status.pid], AfterReap(os, at, status.pid).sup.kernel.t;
    var restarts := e.chain + [os.clock(t)];
    var again := os.spawn(t + 1, e.def, at.sup.kernel.children);
    if !e.def.critical && AsksRestart(e.def.restart, status) && again.Started?
       && CountIn(restarts, os.clock(t) - 10 * SECOND + 1, os.clock(t) + 1) <= 5
    then
      && again.pid in after && after == (at.sup.services - {status.pid})[again.pid := after[again.pid]]
      && var e' := after[again.pid];
         e'.def == e.def && e'.chain == restarts && e'.heard == None && e'.startedAt == os.clock(t + 1)
    else after == at.sup.services - {status.pid}
  }

  /** What a dispatch that neither ends the loop nor rolls back does to the services. */
  lemma DispatchExact(os: Os, at: Loop, wait: WaitResult, graceWaits: seq<WaitResult>)
    requires os.Valid() && os.MonotoneClock() && LoopInv(os, Reopened(at, wait), false) && Collected(at, wait)
    requires !Dispatch(os, at, wait, graceWaits).stopped && !RollsBack(os, at, wait)
    ensures var after := Dispatch(os, at, wait, graceWaits);
            && after.cfg == at.cfg && after.target == at.target && after.timerDefs == at.timerDefs
            && (if Exits(at, wait) then ExitDone(os, at, wait.status, after.sup.services)
                else after.sup.services == at.sup.services)
  {
    KeptWatch(os, at, wait, graceWaits);
    if Exits(at, wait) {
      ReapPhase(os, at, wait, false);
      DispatchExit(os, at, wait, graceWaits);
      SupervisedOnly(os, AfterReap(os, at, wait.status.pid), wait.status, graceWaits);
      ExitedExact(os, at, wait);
    } else {
      DispatchNoExit(os, at, wait, graceWaits);
    }
  }

  lemma ExitedExact(os: Os, at: Loop, wait: WaitResult)
    requires Exits(at, wait) && LoopInv(os, Reopened(AfterReap(os, at, wait.status.pid), wait), false)
    ensures ExitDone(os, at, wait.status,
                     HandleExit(os, AfterReap(os, at, wait.status.pid).sup, wait.status).0.services)
  {
    var next := AfterReap(os, at, wait.status.pid);
    InOrder(os, next, wait);
    ExitExactly(os, next.sup, wait.status);
  }

  lemma InOrder(os: Os, st: Loop, wait: WaitResult)
    requires wait.Status? && IsExit(wait.status) && wait.status.pid in st.sup.services
    requires LoopInv(os, Reopened(st, wait), false)
    ensures var e := st.sup.services[wait.status.pid];
            FaithfulHistory(e.restartTimes, e.chain) && UpTo(e.chain, os.clock(st.sup.kernel.t))
  {
    assert EntryOk(os, st.sup.services[wait.status.pid], st.sup.notify, os.clock(st.sup.kernel.t), false);
  }

  /** A rollback takes the dead service out and brings up the remembered services of the watched target, leaving
      those that run as remembered alone. */
  lemma RollbackExact(os: Os, at: Loop, wait: WaitResult, graceWaits: seq<WaitResult>)
    requires os.Valid() && os.MonotoneClock() && LoopInv(os, Reopened(at, wait), false) && Collected(at, wait)
    requires RollsBack(os, at, wait)
    ensures var after, w := Dispatch(os, at, wait, graceWaits), at.watch.value;
            && after.cfg == w.previous && after.watch == None && after.target == at.target
            && after.timerDefs == at.timerDefs && after.stopped == at.stopped
            && (TargetApart(os, w.previous.services, w.target) ==>
                  exists gone :: GoneFrom(at, wait.status.pid, gone)
                                 && BringsUp(os, gone, after.sup, w.previous.services, w.target))
  {
    var w := at.watch.value;
    var gone := RolledBackFrom(os, at, wait, graceWaits);
    KeptWatch(os, at, wait, graceWaits);
    if TargetApart(os, w.previous.services, w.target) {
      ReloadBringsUp(os, gone.sup, w.previous.services, w.target);
      assert GoneFrom(at, wait.status.pid, gone.sup);
    }
  }

  ghost predicate GoneFrom(at: Loop, pid: Pid, gone: SupState) {
    gone.services == at.sup.services - {pid}
  }

  /** The exit of a timer's run finishes it at the reading at which it is collected; other wait results leave the
      scheduler alone. Nothing starts. */
  lemma DispatchTimers(os: Os, at: Loop, wait: WaitResult, graceWaits: seq<WaitResult>)
    requires LoopInv(os, Reopened(at, wait), false) && Collected(at, wait)
    ensures var after := Dispatch(os, at, wait, graceWaits);
            && after.sched.starts == at.sched.starts
            && (if wait.Status? && IsExit(wait.status) && wait.status.pid in at.sched.pending then
                  var x, now := at.sched.pending[wait.status.pid], os.clock(at.sup.kernel.t);
                  && after.sched.pending == at.sched.pending - {wait.status.pid}
                  && after.sched.lastFinished == at.sched.lastFinished[x := now]
                  && At(after.sched.finishes, x) == At(at.sched.finishes, x) + [now]
                  && (forall y :: y != x ==> At(after.sched.finishes, y) == At(at.sched.finishes, y))
                  && (forall y :: y in after.sched.running <==> y in at.sched.running && y != x)
                else
                  && after.sched.pending == at.sched.pending && after.sched.running == at.sched.running
                  && after.sched.lastFinished == at.sched.lastFinished && after.sched.finishes == at.sched.finishes)
  {
    DispatchSched(os, at, wait, graceWaits);
    if wait.Status? && IsExit(wait.status) {
      ReapExact(os, Clocked(at.sched, at.sup.kernel), wait.status.pid);
    }
  }

  lemma DispatchSched(os: Os, at: Loop, wait: WaitResult, graceWaits: seq<WaitResult>)
    ensures Dispatch(os, at, wait, graceWaits).sched ==
            if wait.Status? && IsExit(wait.status) then
              Reap(os, Clocked(at.sched, at.sup.kernel), wait.status.pid).0.sched
            else at.sched
  {
    if wait.Status? {
      SuperviseSched(os, at, wait.status, graceWaits);
      if IsExit(wait.status) {
        SuperviseSched(os, AfterReap(os, at, wait.status.pid), wait.status, graceWaits);
      }
    }
  }

  lemma SuperviseSched(os: Os, st: Loop, status: WaitStatus, graceWaits: seq<WaitResult>)
    ensures Supervise(os, st, status, graceWaits).sched == st.sched
  {
  }

  // ---------------------------------------------------------------- shutdown

  /** After a shutdown of `before`: what is left are the pids that were not collected, those that are killed, and
      nothing of what was tracked is recorded as ready or pinged. */
  ghost predicate ShutDown(before: Services, after: SupState, waits: seq<WaitResult>) {
    && (forall p :: p in after.services <==> p in before && !Collects(waits, p))
    && (forall p :: p in after.services ==> after.services[p] == before[p])
    && (forall x :: Tracks(before, x) ==> x !in after.notify.ready && x !in after.notify.pings)
  }

  /** A turn that ends the loop shuts down what is tracked: everything on request, everything but the critical
      service that exited otherwise. */
  lemma StopExact(os: Os, st: Loop, inp: Input)
    requires !st.stopped && Turn(os, st, inp).stopped
    ensures var after := Turn(os, st, inp).sup;
            if inp.shutdown then ShutDown(st.sup.services, after, inp.graceWaits)
            else
              var at := BeforeDispatch(os, st, inp);
              && Exits(at, inp.wait)
              && ShutDown(at.sup.services - {inp.wait.status.pid}, after, inp.graceWaits)
  {
    if inp.shutdown {
      ShutdownExact(st.sup, inp.graceWaits);
    } else {
      var at := BeforeDispatch(os, st, inp);
      StopsAtDispatch(os, at, inp.wait, inp.graceWaits);
      DispatchExit(os, at, inp.wait, inp.graceWaits);
      ShutdownExact(HandleExit(os, AfterReap(os, at, inp.wait.status.pid).sup, inp.wait.status).0, inp.graceWaits);
    }
  }

  // ---------------------------------------------------------------- turns and runs

  /** A turn carries out its requests and ticks the timers then in force; then it either ends the loop, or rolls back,
      or handles the wait result. */
  lemma TurnExact(os: Os, st: Loop, inp: Input)
    requires os.Valid() && os.MonotoneClock() && LoopInv(os, st, false) && GoodInput(inp)
    requires !st.stopped && !inp.shutdown && !Turn(os, st, inp).stopped
    ensures exists at ::
              && RequestsDone(os, st, inp, at)
              && (os.AlwaysStarts(at.cfg.services) ==> TicksDone(os, st, at))
              && Turn(os, st, inp).sched.starts == at.sched.starts
              && Handled(os, at, inp.wait, Turn(os, st, inp))
  {
    var at, after := BeforeDispatch(os, st, inp), Turn(os, st, inp);
    TurnRequests(os, st, inp);
    if os.AlwaysStarts(at.cfg.services) {
      TurnTicks(os, st, inp);
    }
    PreparePhase(os, st, inp, false);
    WaitPhase(os, Prepare(os, st, inp), inp, false);
    LookPhase(os, Wait(os, Prepare(os, st, inp), inp), inp.wait, false);
    DispatchTimers(os, at, inp.wait, inp.graceWaits);
    if RollsBack(os, at, inp.wait) {
      RollbackExact(os, at, inp.wait, inp.graceWaits);
    } else {
      DispatchExact(os, at, inp.wait, inp.graceWaits);
    }
    assert Handled(os, at, inp.wait, after);
  }

  /** What handling a wait result does to the services and the configuration. */
  ghost predicate Handled(os: Os, at: Loop, wait: WaitResult, after: Loop) {
    && after.target == at.target && after.timerDefs == at.timerDefs
    && (if RollsBack(os, at, wait) then
          var w := at.watch.value;
          && after.cfg == w.previous
          && (TargetApart(os, w.previous.services, w.target) ==>
                exists gone :: GoneFrom(at, wait.status.pid, gone)
                               && BringsUp(os, gone, after.sup, w.previous.services, w.target))
        else
          && after.cfg == at.cfg
          && (if Exits(at, wait) then ExitDone(os, at, wait.status, after.sup.services)
              else after.sup.services == at.sup.services))
  }

  /** In every run: a turn that is no shutdown, with one-shots starting, starts timer `x` once exactly if `x` is among
      the timers then in force, idle, its service configured and its wait over at its reading in that turn; otherwise
      it does not start it. */
  lemma RunTicks(os: Os, trace: seq<Loop>, inputs: seq<Input>, n: nat, x: string) returns (c: Clocked)
    requires GoodRun(os, trace, inputs, false) && n < |inputs| && !trace[n].stopped && !inputs[n].shutdown
    requires os.AlwaysStarts(InForce(trace[n], inputs[n]).0.services)
    ensures c.sched == trace[n].sched
    ensures trace[n].sup.kernel.t <= c.kernel.t <= BeforeDispatch(os, trace[n], inputs[n]).sup.kernel.t
    ensures TimerStarts(os, trace[n], inputs[n], c, trace[n + 1], x)
  {
    InRun(os, trace, inputs, n);
    assert StepAt(os, trace, inputs, n);
    c := TurnStarts(os, trace[n], inputs[n], x);
  }

  /** Timer `x` is started once if it is due in the state `c` in which the timers are ticked, and not otherwise. */
  ghost predicate TimerStarts(os: Os, st: Loop, inp: Input, c: Clocked, st': Loop, x: string) {
    var (cfg, timers) := InForce(st, inp);
    && (forall j :: 0 <= j < |timers| && timers[j].name == x ==>
          StartedOnce(st, st', x, StartsNow(os, c, timers, cfg.services, j)))
    && ((forall j :: 0 <= j < |timers| ==> timers[j].name != x) ==> StartedOnce(st, st', x, false))
  }

  lemma TurnStarts(os: Os, st: Loop, inp: Input, x: string) returns (c: Clocked)
    requires os.Valid() && os.MonotoneClock() && LoopInv(os, st, false) && GoodInput(inp)
    requires !st.stopped && !inp.shutdown && os.AlwaysStarts(InForce(st, inp).0.services)
    ensures c.sched == st.sched && st.sup.kernel.t <= c.kernel.t <= BeforeDispatch(os, st, inp).sup.kernel.t
    ensures TimerStarts(os, st, inp, c, Turn(os, st, inp), x)
  {
    var at := BeforeDispatch(os, st, inp);
    TimersInForce(os, st, inp);
    TurnTicks(os, st, inp);
    var k :| TickedFrom(os, st, at, k);
    c := Clocked(st.sched, k);
    assert TickLaw(os, c, Clocked(at.sched, at.sup.kernel), at.timerDefs, at.cfg.services, x);
    DispatchStarts(os, at, inp.wait, inp.graceWaits);
    StartedAt(os, c, st, at, Turn(os, st, inp), inp, x);
  }

  lemma TimersInForce(os: Os, st: Loop, inp: Input)
    ensures var at := BeforeDispatch(os, st, inp); (at.cfg, at.timerDefs) == InForce(st, inp)
  {
  }

  lemma DispatchStarts(os: Os, at: Loop, wait: WaitResult, graceWaits: seq<WaitResult>)
    ensures Dispatch(os, at, wait, graceWaits).sched.starts == at.sched.starts
  {
    DispatchSched(os, at, wait, graceWaits);
  }

  lemma StartedAt(os: Os, c: Clocked, st: Loop, at: Loop, after: Loop, inp: Input, x: string)
    requires c.sched == st.sched && (at.cfg, at.timerDefs) == InForce(st, inp)
    requires TickLaw(os, c, Clocked(at.sched, at.sup.kernel), at.timerDefs, at.cfg.services, x)
    requires after.sched.starts == at.sched.starts
    ensures TimerStarts(os, st, inp, c, after, x)
  {
  }

  /** Configuration and timers in force once the requests of the turn are carried out. */
  function InForce(st: Loop, inp: Input): (Configuration, seq<TimerDef>) {
    if inp.reload.Some? then inp.reload.value else (st.cfg, st.timerDefs)
  }

  ghost predicate StartedOnce(st: Loop, st': Loop, x: string, started: bool) {
    |At(st'.sched.starts, x)| == |At(st.sched.starts, x)| + (if started then 1 else 0)
    && At(st.sched.starts, x) <= At(st'.sched.starts, x)
  }

  // ---------------------------------------------------------------- boot

  /** Boot enters the loop with the services of the default target: nothing else is tracked but rescue shells, and if
      the system starts them all and their ordering has no cycle every one of them is. */
  lemma BootedExact(os: Os, cfg: Configuration, timers: seq<TimerDef>)
    requires os.Valid() && os.MonotoneClock() && UniqueNames(cfg.services)
    ensures var st, all := Booted(os, cfg, timers), cfg.services;
            && st.cfg == cfg && st.target == cfg.defaultTarget && st.timerDefs == timers && st.watch.None?
            && !st.stopped && st.sched == IDLE
            && (forall p :: p in st.sup.services ==>
                  || (exists d :: Wanted(all, cfg.defaultTarget, d)
                                  && st.sup.services[p].def == d.(after := st.sup.services[p].def.after))
                  || (st.sup.services[p].def == FallbackShell() && !os.NoFallback()))
            && (NameStarts(os, all, cfg.defaultTarget) && TargetApart(os, all, cfg.defaultTarget)
                && !HasCycle(AfterGraph(EffectiveAfter(ServicesIn(all, cfg.defaultTarget)))) ==>
                  forall d :: Wanted(all, cfg.defaultTarget, d) ==> Tracks(st.sup.services, d.name))
  {
    BootedEntries(os, cfg, timers);
    if NameStarts(os, cfg.services, cfg.defaultTarget) && TargetApart(os, cfg.services, cfg.defaultTarget)
       && !HasCycle(AfterGraph(EffectiveAfter(ServicesIn(cfg.services, cfg.defaultTarget)))) {
      forall d | Wanted(cfg.services, cfg.defaultTarget, d)
        ensures Tracks(Booted(os, cfg, timers).sup.services, d.name)
      {
        BootedTracks(os, cfg, timers, d);
      }
    }
  }

  lemma BootedEntries(os: Os, cfg: Configuration, timers: seq<TimerDef>)
    requires os.Valid() && os.MonotoneClock() && UniqueNames(cfg.services)
    ensures var st, all := Booted(os, cfg, timers), cfg.services;
            forall p :: p in st.sup.services ==>
              || (exists d :: Wanted(all, cfg.defaultTarget, d)
                              && st.sup.services[p].def == d.(after := st.sup.services[p].def.after))
              || (st.sup.services[p].def == FallbackShell() && !os.NoFallback())
  {
    var defs := ServicesIn(cfg.services, cfg.defaultTarget);
    var st := Booted(os, cfg, timers);
    ServicesInExact(cfg.services, cfg.defaultTarget);
    BootEstablishesInv(os, SupState(map[], Notify({}, map[]), Kernel(0, {})), defs);
    forall p | p in st.sup.services && st.sup.services[p].def in EffectiveAfter(defs)
      ensures exists d :: Wanted(cfg.services, cfg.defaultTarget, d)
                          && st.sup.services[p].def == d.(after := st.sup.services[p].def.after)
    {
      var i :| 0 <= i < |defs| && EffectiveAfter(defs)[i] == st.sup.services[p].def;
      FoldingExact(defs, i);
      assert Wanted(cfg.services, cfg.defaultTarget, defs[i]);
    }
  }

  lemma BootedTracks(os: Os, cfg: Configuration, timers: seq<TimerDef>, d: ServiceDef)
    requires os.Valid() && UniqueNames(cfg.services) && Wanted(cfg.services, cfg.defaultTarget, d)
    requires NameStarts(os, cfg.services, cfg.defaultTarget) && TargetApart(os, cfg.services, cfg.defaultTarget)
    requires !HasCycle(AfterGraph(EffectiveAfter(ServicesIn(cfg.services, cfg.defaultTarget))))
    ensures Tracks(Booted(os, cfg, timers).sup.services, d.name)
  {
    ServicesInExact(cfg.services, cfg.defaultTarget);
    NamesStart(os, cfg.services, cfg.defaultTarget);
    BootAcyclic(os, SupState(map[], Notify({}, map[]), Kernel(0, {})), ServicesIn(cfg.services, cfg.defaultTarget), {},
                d);
  }

  /** The system starts whatever goes by the name of a service of the target. */
  ghost predicate NameStarts(os: Os, all: seq<ServiceDef>, target: string) {
    forall t, e: ServiceDef, kids, d :: Wanted(all, target, d) && e.name == d.name ==> os.spawn(t, e, kids).Started?
  }

  lemma NamesStart(os: Os, all: seq<ServiceDef>, target: string)
    requires NameStarts(os, all, target)
    ensures RefusesExactly(os, EffectiveAfter(ServicesIn(all, target)), {})
  {
    var defs := ServicesIn(all, target);
    ServicesInExact(all, target);
    forall e | e in EffectiveAfter(defs) ensures exists d :: Wanted(all, target, d) && e.name == d.name {
      var i :| 0 <= i < |defs| && EffectiveAfter(defs)[i] == e;
      assert Wanted(all, target, defs[i]) && defs[i].name == e.name;
    }
  }
}
