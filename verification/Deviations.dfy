/** When exactly a run leaves services tracked that the configuration in force does not have in the active target. */
module Deviations {
  import opened Config
  import opened Machine
  import opened Supervision
  import opened Targets
  import opened Folding
  import opened BootTheorems
  import opened EventLoop
  import opened Reconcile
  import opened Invariants
  import opened Runs
  import opened Rollback
  import opened Conformance

  ghost predicate ConformsAt(os: Os, boot: seq<ServiceDef>, st: Loop) {
    Conforms(os, boot, st.sup.services, ServicesIn(st.cfg.services, st.target))
  }

  /** Nothing of `defs` would run after reconciling `services` with it: each is refused and does not run already.
      Names a rescue shell answers to do not matter. */
  ghost predicate NoneWouldRun(os: Os, services: Services, defs: seq<ServiceDef>, bad: ServiceDef -> bool) {
    forall d :: d in defs && d.name !in Exempt(os) ==> bad(d) && !Holds(services, d)
  }

  /** Whether the system refuses a definition of `defs` depends on the definition alone. */
  ghost predicate RefusesBad(os: Os, defs: seq<ServiceDef>, bad: ServiceDef -> bool) {
    forall t, e, kids :: e in defs ==> (os.spawn(t, e, kids).Refused? <==> bad(e))
  }

  /** In a uniquely named list that can be said by name. */
  lemma BadNames(os: Os, defs: seq<ServiceDef>, bad: ServiceDef -> bool) returns (fails: set<string>)
    requires UniqueNames(defs) && RefusesBad(os, defs, bad)
    ensures RefusesExactly(os, defs, fails) && forall d :: d in defs ==> (d.name in fails <==> bad(d))
  {
    fails := set d | d in defs && bad(d) :: d.name;
    forall d | d in defs && d.name in fails ensures bad(d) {
      var e :| e in defs && bad(e) && e.name == d.name;
      SameNameSameDef(defs, d, e);
    }
  }

  // ---------------------------------------------------------------- one rollback

  /** A rollback to another target than the active one conforms only if it leaves nothing but exempt names. */
  lemma ElsewhereConforms(os: Os, boot: seq<ServiceDef>, services: Services, all: seq<ServiceDef>, there: string,
                          here: string)
    requires there != here
    requires forall p :: p in services && services[p].def.name !in Exempt(os) ==>
               services[p].def in ServicesIn(all, there)
    ensures Conforms(os, boot, services, ServicesIn(all, here)) <==>
            forall p :: p in services ==> services[p].def.name in Exempt(os)
  {
    ServicesInExact(all, there);
    ServicesInExact(all, here);
    forall p | p in services && services[p].def.name !in Exempt(os)
      ensures !Carries(boot, ServicesIn(all, here), services[p].def)
    {
      assert services[p].def.target == there;
      assert forall i :: 0 <= i < |boot| ==> EffectiveAfter(boot)[i].target == boot[i].target;
    }
  }

  /** Whether reconciling leaves nothing but exempt names running. */
  lemma NothingLeft(os: Os, s: SupState, defs: seq<ServiceDef>, bad: ServiceDef -> bool)
    requires os.Valid() && Owned(s) && UniqueTracked(s.services, Exempt(os)) && UniqueNames(defs)
    requires RefusesBad(os, defs, bad)
    ensures var services := ReloadServices(os, s, defs).sup.services;
            (forall p :: p in services ==> services[p].def.name in Exempt(os)) <==>
            NoneWouldRun(os, s.services, defs, bad)
  {
    var services := ReloadServices(os, s, defs).sup.services;
    ReloadConforms(os, s, defs);
    var fails := BadNames(os, defs, bad);
    forall d | d in defs && d.name !in Exempt(os) ensures Holds(services, d) <==> Holds(s.services, d) || !bad(d) {
      ReloadHolds(os, s, defs, fails, d);
    }
    forall p | p in services && services[p].def.name !in Exempt(os) ensures !NoneWouldRun(os, s.services, defs, bad) {
      assert Holds(services, services[p].def);
    }
  }

  /** Whether a rollback leaves a conforming state, decided before it happens: it does if the watched target is still
      the active one, whatever is refused. Otherwise, where refusals depend on the definition alone, exactly if
      nothing the remembered configuration has in the watched target would run. */
  lemma RollbackConformsExactly(os: Os, boot: seq<ServiceDef>, st: Loop, w: Watch, name: string,
                                bad: ServiceDef -> bool)
    requires os.Valid() && LoopInv(os, st, false) && st.watch == Some(w) && name in w.touched
    ensures w.target == st.target ==> ConformsAt(os, boot, Check(os, st, w, Some(name)))
    ensures var defs := ServicesIn(w.previous.services, w.target);
            RefusesBad(os, defs, bad) ==>
              (ConformsAt(os, boot, Check(os, st, w, Some(name))) <==>
               w.target == st.target || NoneWouldRun(os, st.sup.services, defs, bad))
  {
    var all := w.previous.services;
    var defs := ServicesIn(all, w.target);
    ReconciledConforms(os, boot, st.sup, all, w.target, st.sched.pending.Keys, false);
    if w.target != st.target && RefusesBad(os, defs, bad) {
      ServicesInExact(all, w.target);
      ReloadConforms(os, st.sup, defs);
      NothingLeft(os, st.sup, defs, bad);
      ElsewhereConforms(os, boot, ReloadServices(os, st.sup, defs).sup.services, all, w.target, st.target);
    }
  }

  // ---------------------------------------------------------------- one turn

  lemma FewerConform(os: Os, boot: seq<ServiceDef>, a: Services, b: Services, current: seq<ServiceDef>)
    requires DefsFrom(a, b) && Conforms(os, boot, b, current)
    ensures Conforms(os, boot, a, current)
  {
    forall p | p in a && a[p].def.name !in Exempt(os) ensures Carries(boot, current, a[p].def) {
      assert Holds(b, a[p].def);
    }
  }

  /** Reloads and isolates, whenever they are accepted, leave a conforming state; timers and datagrams keep it. */
  lemma ConformsBeforeDispatch(os: Os, boot: seq<ServiceDef>, st: Loop, inp: Input)
    requires os.Valid() && os.MonotoneClock() && LoopInv(os, st, false) && GoodInput(inp) && ConformsAt(os, boot, st)
    ensures ConformsAt(os, boot, BeforeDispatch(os, st, inp))
  {
    var reloaded := if inp.reload.Some? then Reload(os, st, inp.reload.value.0, inp.reload.value.1) else st;
    if inp.reload.Some? {
      ReloadPhase(os, st, inp.reload.value.0, inp.reload.value.1, false);
      ReconciledConforms(os, boot, st.sup, reloaded.cfg.services, st.target, st.sched.pending.Keys, false);
    }
    var isolated := if inp.isolate.Some? then Isolate(os, reloaded, inp.isolate.value) else reloaded;
    if inp.isolate.Some? {
      ReconciledConforms(os, boot, reloaded.sup, reloaded.cfg.services, inp.isolate.value,
                         reloaded.sched.pending.Keys, false);
    }
    assert ConformsAt(os, boot, isolated);
    PreparePhase(os, st, inp, false);
    WaitPhase(os, Prepare(os, st, inp), inp, false);
    var at := BeforeDispatch(os, st, inp);
    SameDefsFrom(at.sup.services, isolated.sup.services);
    FewerConform(os, boot, at.sup.services, isolated.sup.services, ServicesIn(at.cfg.services, at.target));
  }

  /** A rollback in this turn, if there is one, is to the active target or brings nothing back. */
  ghost predicate Fits(os: Os, at: Loop, wait: WaitResult, bad: ServiceDef -> bool) {
    RollsBack(os, at, wait) ==>
      var w := at.watch.value;
      || w.target == at.target
      || NoneWouldRun(os, at.sup.services - {wait.status.pid}, ServicesIn(w.previous.services, w.target), bad)
  }

  lemma DispatchConformsExactly(os: Os, boot: seq<ServiceDef>, st: Loop, wait: WaitResult, graceWaits: seq<WaitResult>,
                                bad: ServiceDef -> bool)
    requires os.Valid() && os.MonotoneClock() && LoopInv(os, Reopened(st, wait), false) && Collected(st, wait)
    requires AlwaysRefusesBad(os, bad) && ConformsAt(os, boot, st) && !Dispatch(os, st, wait, graceWaits).stopped
    ensures ConformsAt(os, boot, Dispatch(os, st, wait, graceWaits)) <==> Fits(os, st, wait, bad)
  {
    if RollsBack(os, st, wait) {
      var w := st.watch.value;
      var gone := RolledBackFrom(os, st, wait, graceWaits);
      RollbackConformsExactly(os, boot, gone, w, st.sup.services[wait.status.pid].def.name, bad);
    } else {
      DispatchKeepsDefs(os, st, wait, graceWaits);
      var st' := Dispatch(os, st, wait, graceWaits);
      FewerConform(os, boot, st'.sup.services, st.sup.services, ServicesIn(st.cfg.services, st.target));
    }
  }

  /** Whether the system refuses a definition depends on the definition alone. */
  ghost predicate AlwaysRefusesBad(os: Os, bad: ServiceDef -> bool) {
    forall t, e, kids :: os.spawn(t, e, kids).Refused? <==> bad(e)
  }

  /** From a conforming state, a turn that does not end the loop leaves a conforming one exactly if it does not roll
      back, or rolls back to the active target, or brings nothing back. */
  lemma TurnConformsExactly(os: Os, boot: seq<ServiceDef>, st: Loop, inp: Input, bad: ServiceDef -> bool)
    requires os.Valid() && os.MonotoneClock() && AlwaysRefusesBad(os, bad)
    requires LoopInv(os, st, false) && GoodInput(inp) && ConformsAt(os, boot, st)
    requires !Turn(os, st, inp).stopped
    ensures ConformsAt(os, boot, Turn(os, st, inp)) <==>
            Fits(os, BeforeDispatch(os, st, inp), inp.wait, bad)
  {
    ConformsBeforeDispatch(os, boot, st, inp);
    PreparePhase(os, st, inp, false);
    WaitPhase(os, Prepare(os, st, inp), inp, false);
    LookPhase(os, Wait(os, Prepare(os, st, inp), inp), inp.wait, false);
    DispatchConformsExactly(os, boot, BeforeDispatch(os, st, inp), inp.wait, inp.graceWaits, bad);
  }

  // ---------------------------------------------------------------- whole runs

  ghost predicate AlwaysConforms(os: Os, boot: seq<ServiceDef>, trace: seq<Loop>) {
    forall n :: 0 <= n < |trace| ==> trace[n].stopped || ConformsAt(os, boot, trace[n])
  }

  /** Turn `n` does not end the loop but rolls back to a target that is not active, bringing something back. */
  ghost predicate Strays(os: Os, trace: seq<Loop>, inputs: seq<Input>, n: nat, bad: ServiceDef -> bool)
    requires n < |inputs| && n + 1 < |trace|
  {
    !trace[n + 1].stopped && !Fits(os, BeforeDispatch(os, trace[n], inputs[n]), inputs[n].wait, bad)
  }

  lemma RunStepExactly(os: Os, boot: seq<ServiceDef>, trace: seq<Loop>, inputs: seq<Input>, n: nat,
                       bad: ServiceDef -> bool)
    requires GoodRun(os, trace, inputs, false) && AlwaysRefusesBad(os, bad) && n < |inputs|
    requires trace[n].stopped || ConformsAt(os, boot, trace[n])
    ensures trace[n + 1].stopped || ConformsAt(os, boot, trace[n + 1]) <==> !Strays(os, trace, inputs, n, bad)
  {
    RunKeepsInv(os, trace, inputs, n, false);
    StepTo(os, trace, inputs, n + 1);
    if !trace[n + 1].stopped {
      TurnConformsExactly(os, boot, trace[n], inputs[n], bad);
    }
  }

  lemma {:induction false} ConformsUpTo(os: Os, boot: seq<ServiceDef>, trace: seq<Loop>, inputs: seq<Input>, n: nat,
                                        bad: ServiceDef -> bool)
    requires GoodRun(os, trace, inputs, false) && AlwaysRefusesBad(os, bad) && n <= |inputs|
    requires ConformsAt(os, boot, trace[0]) && forall k :: 0 <= k < n ==> !Strays(os, trace, inputs, k, bad)
    ensures trace[n].stopped || ConformsAt(os, boot, trace[n])
  {
    if n == 0 {
    } else {
      ConformsUpTo(os, boot, trace, inputs, n - 1, bad);
      RunStepExactly(os, boot, trace, inputs, n - 1, bad);
    }
  }

  /** A run keeps the tracked services those of the configuration in force at every loop head exactly if no turn of it
      rolls back to a target that is no longer active and brings something back. */
  lemma RunConformsExactly(os: Os, boot: seq<ServiceDef>, trace: seq<Loop>, inputs: seq<Input>, bad: ServiceDef -> bool)
    requires GoodRun(os, trace, inputs, false) && AlwaysRefusesBad(os, bad) && ConformsAt(os, boot, trace[0])
    ensures AlwaysConforms(os, boot, trace) <==>
            forall n :: 0 <= n < |inputs| ==> !Strays(os, trace, inputs, n, bad)
  {
    if AlwaysConforms(os, boot, trace) {
      forall n | 0 <= n < |inputs| ensures !Strays(os, trace, inputs, n, bad) {
        RunStepExactly(os, boot, trace, inputs, n, bad);
      }
    }
    if forall n :: 0 <= n < |inputs| ==> !Strays(os, trace, inputs, n, bad) {
      forall n | 0 <= n < |trace| ensures trace[n].stopped || ConformsAt(os, boot, trace[n]) {
        ConformsUpTo(os, boot, trace, inputs, n, bad);
      }
    }
  }
}
