/** In every run the tracked services are those of the configuration in force. */
module Conformance {
  import opened Config
  import opened Machine
  import opened Supervision
  import opened Targets
  import opened Timers
  import opened Folding
  import opened EventLoop
  import opened Reconcile
  import opened Invariants
  import opened Runs

  /** `def` is one of `current`, or the boot-time folding of one of them. */
  ghost predicate Carries(boot: seq<ServiceDef>, current: seq<ServiceDef>, def: ServiceDef) {
    def in current || exists i :: 0 <= i < |boot| && boot[i] in current && EffectiveAfter(boot)[i] == def
  }

  /** Every tracked service outside the exempt names is in the active target of the configuration in force, with
      that configuration's definition up to the boot-time folding of `after`. */
  ghost predicate Conforms(os: Os, boot: seq<ServiceDef>, services: Services, current: seq<ServiceDef>) {
    forall p :: p in services && services[p].def.name !in Exempt(os) ==> Carries(boot, current, services[p].def)
  }

  /** A held watch names services of the configuration in force, in the active target unless the active target
      was changed since, in which case none of the services it watches is tracked any more. */
  ghost predicate WatchOk(os: Os, st: Loop) {
    st.watch.Some? ==>
      var w := st.watch.value;
      && (forall x :: x in w.touched ==> x in Names(ServicesIn(st.cfg.services, w.target)))
      && (w.target == st.target || (os.NoFallback() && forall x :: x in w.touched ==> !Tracks(st.sup.services, x)))
  }

  ghost predicate ConfInv(os: Os, boot: seq<ServiceDef>, st: Loop) {
    Conforms(os, boot, st.sup.services, ServicesIn(st.cfg.services, st.target)) && WatchOk(os, st)
  }

  // ---------------------------------------------------------------- steps

  lemma {:induction false} TouchedAreListed(os: Os, s: SupState, defs: seq<ServiceDef>, n: nat)
    requires n <= |defs|
    ensures forall x :: x in ReloadLoop(os, s, defs, n).touched ==> x in Names(defs)
  {
    if n == 0 {
    } else {
      TouchedAreListed(os, s, defs, n - 1);
      assert defs[n - 1] in defs;
    }
  }

  lemma ReconciledConforms(os: Os, boot: seq<ServiceDef>, s: SupState, all: seq<ServiceDef>, target: string,
                           other: set<Pid>, timely: bool)
    requires os.Valid() && SupInv(os, s, other, timely) && UniqueNames(all)
    ensures var r := ReloadServices(os, s, ServicesIn(all, target));
            && Conforms(os, boot, r.sup.services, ServicesIn(all, target))
            && (forall x :: x in r.touched ==> x in Names(ServicesIn(all, target)))
            && (os.NoFallback() ==> forall x :: Tracks(r.sup.services, x) ==> x in Names(ServicesIn(all, target)))
  {
    var defs := ServicesIn(all, target);
    ServicesInExact(all, target);
    ReloadConforms(os, s, defs);
    TouchedAreListed(os, StopAll(os, s, Stale(s, defs)), defs, |defs|);
  }

  /** Services of two targets share no name. */
  lemma TargetsApart(all: seq<ServiceDef>, a: string, b: string, x: string)
    requires UniqueNames(all) && a != b && x in Names(ServicesIn(all, a))
    ensures x !in Names(ServicesIn(all, b))
  {
    ServicesInExact(all, a);
    ServicesInExact(all, b);
    var d :| d in ServicesIn(all, a) && d.name == x;
    forall e | e in ServicesIn(all, b) ensures e.name != x {
      if e.name == x { SameNameSameDef(all, d, e); }
    }
  }

  lemma ReloadStep(os: Os, boot: seq<ServiceDef>, st: Loop, newCfg: Configuration, newTimers: seq<TimerDef>,
                   timely: bool)
    requires os.Valid() && LoopInv(os, st, timely) && UniqueNames(newCfg.services)
    ensures ConfInv(os, boot, Reload(os, st, newCfg, newTimers))
  {
    ReconciledConforms(os, boot, st.sup, newCfg.services, st.target, st.sched.pending.Keys, timely);
  }

  lemma IsolateStep(os: Os, boot: seq<ServiceDef>, st: Loop, name: string, timely: bool)
    requires os.Valid() && LoopInv(os, st, timely) && ConfInv(os, boot, st)
    requires os.NoFallback() || st.watch.None? || name == st.target || !HasTarget(st.cfg.services, name)
    ensures ConfInv(os, boot, Isolate(os, st, name))
  {
    if HasTarget(st.cfg.services, name) {
      ReconciledConforms(os, boot, st.sup, st.cfg.services, name, st.sched.pending.Keys, timely);
      if st.watch.Some? && st.watch.value.target != name {
        var w := st.watch.value;
        forall x | x in w.touched ensures x !in Names(ServicesIn(st.cfg.services, name)) {
          TargetsApart(st.cfg.services, w.target, name, x);
        }
      }
    }
  }

  /** Nothing but the tracked definitions matters, and fewer of them conform all the more. */
  lemma FewerDefs(os: Os, boot: seq<ServiceDef>, st: Loop, next: Loop)
    requires ConfInv(os, boot, st) && DefsFrom(next.sup.services, st.sup.services)
    requires next.cfg == st.cfg && next.target == st.target && (next.watch == st.watch || next.watch.None?)
    ensures ConfInv(os, boot, next)
  {
    forall p | p in next.sup.services
      ensures exists q :: q in st.sup.services && st.sup.services[q].def == next.sup.services[p].def
    {
      assert Holds(st.sup.services, next.sup.services[p].def);
    }
    forall x | Tracks(next.sup.services, x) ensures Tracks(st.sup.services, x) {
      var p :| p in next.sup.services && next.sup.services[p].def.name == x;
      var q :| q in st.sup.services && st.sup.services[q].def == next.sup.services[p].def;
    }
  }

  lemma PrepareStep(os: Os, boot: seq<ServiceDef>, st: Loop, inp: Input, timely: bool)
    requires os.Valid() && os.MonotoneClock() && LoopInv(os, st, timely) && GoodInput(inp) && ConfInv(os, boot, st)
    requires os.NoFallback() || QuietInput(st, inp)
    ensures ConfInv(os, boot, Prepare(os, st, inp))
  {
    var reloaded := if inp.reload.Some? then Reload(os, st, inp.reload.value.0, inp.reload.value.1) else st;
    if inp.reload.Some? {
      ReloadPhase(os, st, inp.reload.value.0, inp.reload.value.1, timely);
      ReloadStep(os, boot, st, inp.reload.value.0, inp.reload.value.1, timely);
    }
    var isolated := if inp.isolate.Some? then Isolate(os, reloaded, inp.isolate.value) else reloaded;
    if inp.isolate.Some? {
      IsolateStep(os, boot, reloaded, inp.isolate.value, timely);
    }
    SameDefsFrom(isolated.sup.services, isolated.sup.services);
    FewerDefs(os, boot, isolated, TickTimers(os, isolated));
  }

  /** No isolate to another target is accepted while a reload watch is held. */
  predicate QuietInput(st: Loop, inp: Input) {
    inp.isolate.Some? && inp.isolate.value != st.target ==>
      if inp.reload.Some? then !HasTarget(inp.reload.value.0.services, inp.isolate.value)
      else st.watch.None? || !HasTarget(st.cfg.services, inp.isolate.value)
  }

  lemma CheckStep(os: Os, boot: seq<ServiceDef>, st: Loop, failed: Option<string>, timely: bool)
    requires os.Valid() && LoopInv(os, st, timely) && ConfInv(os, boot, st)
    requires failed.Some? && st.watch.Some? && failed.value in st.watch.value.touched ==>
               st.watch.value.target == st.target
    ensures ConfInv(os, boot, CheckWatch(os, st, failed))
  {
    if st.watch.Some? {
      var w := st.watch.value;
      if failed.Some? && failed.value in w.touched {
        ReconciledConforms(os, boot, st.sup, w.previous.services, w.target, st.sched.pending.Keys, timely);
      } else {
        SameDefsFrom(st.sup.services, st.sup.services);
        FewerDefs(os, boot, st, CheckWatch(os, st, failed));
      }
    }
  }

  /** After an exit is handled; a service that died for good was tracked, so a watch that touched it is for the
      active target. */
  lemma HandledStep(os: Os, boot: seq<ServiceDef>, st: Loop, wait: WaitResult, timely: bool)
    requires os.Valid() && os.MonotoneClock() && wait.Status?
    requires LoopInv(os, Reopened(st, wait), timely) && Collected(st, wait) && ConfInv(os, boot, st)
    requires IsExit(wait.status) ==> wait.status.pid !in st.sched.pending
    ensures var (sup, outcome) := HandleExit(os, st.sup, wait.status);
            && LoopInv(os, st.(sup := sup), timely) && ConfInv(os, boot, st.(sup := sup))
            && (outcome != Continue && st.watch.Some? && outcome.name in st.watch.value.touched ==>
                  st.watch.value.target == st.target)
  {
    var (sup, outcome) := HandleExit(os, st.sup, wait.status);
    if IsExit(wait.status) && wait.status.pid in st.sup.services {
      ExitKeepsInv(os, st.sup, wait.status, st.sched.pending.Keys, timely);
      assert Tracks(st.sup.services, st.sup.services[wait.status.pid].def.name);
    } else {
      SameDefsFrom(st.sup.services, st.sup.services);
    }
    FewerDefs(os, boot, st, st.(sup := sup));
  }

  lemma SuperviseStep(os: Os, boot: seq<ServiceDef>, st: Loop, wait: WaitResult, graceWaits: seq<WaitResult>,
                      timely: bool)
    requires os.Valid() && os.MonotoneClock() && wait.Status?
    requires LoopInv(os, Reopened(st, wait), timely) && Collected(st, wait) && ConfInv(os, boot, st)
    requires IsExit(wait.status) ==> wait.status.pid !in st.sched.pending
    ensures var st' := Supervise(os, st, wait.status, graceWaits); st'.stopped || ConfInv(os, boot, st')
  {
    HandledStep(os, boot, st, wait, timely);
    var (sup, outcome) := HandleExit(os, st.sup, wait.status);
    var next := st.(sup := sup);
    match outcome
    case Continue => CheckStep(os, boot, next, None, timely);
    case GaveUp(name) => CheckStep(os, boot, next, Some(name), timely);
    case Halt(name) =>
      if st.watch.Some? && name in st.watch.value.touched {
        CheckStep(os, boot, next, Some(name), timely);
      }
  }

  lemma DispatchStep(os: Os, boot: seq<ServiceDef>, st: Loop, wait: WaitResult, graceWaits: seq<WaitResult>,
                     timely: bool)
    requires os.Valid() && os.MonotoneClock() && ConfInv(os, boot, st)
    requires LoopInv(os, Reopened(st, wait), timely) && Collected(st, wait)
    ensures var st' := Dispatch(os, st, wait, graceWaits); st'.stopped || ConfInv(os, boot, st')
  {
    if wait.Status? {
      if wait.status.StillAlive? {
        CheckStep(os, boot, st, None, timely);
      } else if IsExit(wait.status) {
        ReapPhase(os, st, wait, timely);
        var (c, handled) := Reap(os, Clocked(st.sched, st.sup.kernel), wait.status.pid);
        var next := st.(sched := c.sched, sup := st.sup.(kernel := c.kernel));
        SameDefsFrom(st.sup.services, st.sup.services);
        FewerDefs(os, boot, st, next);
        if handled {
          CheckStep(os, boot, next, None, timely);
        } else {
          SuperviseStep(os, boot, next, wait, graceWaits, timely);
        }
      } else {
        SuperviseStep(os, boot, st, wait, graceWaits, timely);
      }
    }
  }

  lemma TurnStep(os: Os, boot: seq<ServiceDef>, st: Loop, inp: Input)
    requires os.Valid() && os.MonotoneClock() && LoopInv(os, st, false) && GoodInput(inp) && ConfInv(os, boot, st)
    requires os.NoFallback() || QuietInput(st, inp)
    ensures var st' := Turn(os, st, inp); st'.stopped || ConfInv(os, boot, st')
  {
    if !st.stopped && !inp.shutdown {
      PreparePhase(os, st, inp, false);
      PrepareStep(os, boot, st, inp, false);
      var prepared := Prepare(os, st, inp);
      WaitPhase(os, prepared, inp, false);
      var waited := Wait(os, prepared, inp);
      LookPhase(os, waited, inp.wait, false);
      var looked := waited.(sup := waited.sup.(kernel := waited.sup.kernel.Advance(1)));
      SameDefsFrom(looked.sup.services, prepared.sup.services);
      FewerDefs(os, boot, prepared, looked);
      DispatchStep(os, boot, looked, inp.wait, inp.graceWaits, false);
    }
  }

  // ---------------------------------------------------------------- whole runs

  /** Every run keeps the tracked services those of the configuration in force, if no rescue shell is ever
      started or no isolate to another target is accepted while a reload watch is held. Without rescue shells
      the second premise is not needed: a watch left over from another target watches nothing that runs. */
  lemma {:induction false} RunConforms(os: Os, boot: seq<ServiceDef>, trace: seq<Loop>, inputs: seq<Input>, n: nat)
    requires GoodRun(os, trace, inputs, false) && n <= |inputs| && ConfInv(os, boot, trace[0])
    requires os.NoFallback() || forall i :: 0 <= i < |inputs| ==> QuietInput(trace[i], inputs[i])
    ensures trace[n].stopped || ConfInv(os, boot, trace[n])
  {
    if n == 0 {
    } else {
      RunConforms(os, boot, trace, inputs, n - 1);
      RunKeepsInv(os, trace, inputs, n - 1, false);
      StepTo(os, trace, inputs, n);
      if !trace[n - 1].stopped {
        TurnStep(os, boot, trace[n - 1], inputs[n - 1]);
      }
    }
  }

  /** The state boot reaches conforms, every tracked service carrying a folded definition. */
  lemma BootedConforms(os: Os, cfg: Configuration, timers: seq<TimerDef>)
    requires os.Valid() && os.MonotoneClock() && UniqueNames(cfg.services)
    ensures ConfInv(os, ServicesIn(cfg.services, cfg.defaultTarget), Booted(os, cfg, timers))
  {
    var boot := ServicesIn(cfg.services, cfg.defaultTarget);
    ServicesInExact(cfg.services, cfg.defaultTarget);
    BootEstablishesInv(os, SupState(map[], Notify({}, map[]), Kernel(0, {})), boot);
    var st := Booted(os, cfg, timers);
    forall p | p in st.sup.services && st.sup.services[p].def.name !in Exempt(os)
      ensures Carries(boot, boot, st.sup.services[p].def)
    {
      var i :| 0 <= i < |boot| && EffectiveAfter(boot)[i] == st.sup.services[p].def;
      assert boot[i] in boot;
    }
  }
}
