/** Services called like the rescue shell. A reload looks for a running instance by name and takes the one it meets
    first, so a rescue shell can be mistaken for a configured service of that name. */
module Shells {
  import opened Config
  import opened Machine
  import opened Supervision
  import opened Targets
  import opened Timers
  import opened Folding
  import opened EventLoop
  import opened Reconcile
  import opened Invariants
  import opened Runs
  import opened Rollback
  import opened Conformance
  import opened Guarantees

  // ---------------------------------------------------------------- one reload

  /** The entries called like the rescue shell that are neither one nor run a definition of `defs`. */
  ghost function StrayShells(services: Services, defs: seq<ServiceDef>): set<Pid> {
    set p | p in services && services[p].def.name == SHELL && services[p].def != FallbackShell()
            && services[p].def !in defs
  }

  lemma SpawnStrays(os: Os, s: SupState, d: ServiceDef, defs: seq<ServiceDef>)
    requires os.Valid() && Owned(s) && d in defs
    ensures var s' := SpawnWithHistory(os, s, d, [], []);
            && StrayShells(s'.services, defs) == StrayShells(s.services, defs)
            && forall p :: p in s.services ==> p in s'.services && s'.services[p] == s.services[p]
  {
    assert Fresh(os.spawn(s.kernel.t, d, s.kernel.children), s.kernel.children);
  }

  /** One turn of the reload loop takes out at most the entry it meets. */
  lemma TurnStrays(os: Os, s: SupState, d: ServiceDef, defs: seq<ServiceDef>)
    requires os.Valid() && Owned(s) && d in defs
    ensures StrayShells(ReloadOne(os, s, d).sup.services, defs) ==
            StrayShells(s.services, defs)
            - if d.name == SHELL then {os.pick(s.kernel.t, Named(s.services, SHELL))} else {}
    ensures var r := ReloadOne(os, s, d).sup;
            forall p :: p in StrayShells(r.services, defs) ==> r.services[p] == s.services[p]
  {
    var found := Named(s.services, d.name);
    if found == {} {
      SpawnStrays(os, s, d, defs);
      assert forall p :: p in s.services && s.services[p].def.name == d.name ==> p in found;
    } else {
      var pid := os.pick(s.kernel.t, found);
      assert pid in found;
      DefsEqualIsEquality(s.services[pid].def, d);
      if s.services[pid].def != d {
        var stopped := s.(services := s.services - {pid}, kernel := StopKernel(os, s.kernel, {pid}));
        SpawnStrays(os, stopped, d, defs);
        assert StrayShells(stopped.services, defs) == StrayShells(s.services, defs) - {pid};
      }
    }
  }

  /** The entry met when the loop, started in `s`, looks for the definition called `shell`. */
  ghost function MetInLoop(os: Os, s: SupState, defs: seq<ServiceDef>): Pid {
    var at := ReloadLoop(os, s, defs, FirstNamed(defs, SHELL)).sup;
    os.pick(at.kernel.t, Named(at.services, SHELL))
  }

  lemma LoopStrays(os: Os, s: SupState, defs: seq<ServiceDef>)
    requires os.Valid() && Owned(s) && UniqueNames(defs)
    ensures StraysSoFar(s, ReloadLoop(os, s, defs, |defs|).sup, defs, |defs|, MetInLoop(os, s, defs))
  {
    var j, met := FirstNamed(defs, SHELL), MetInLoop(os, s, defs);
    EarlyStrays(os, s, defs, j, met);
    if j < |defs| {
      StraysStep(os, s, ReloadLoop(os, s, defs, j).sup, defs, j, met);
      LateStrays(os, s, defs, |defs|, met);
    }
  }

  /** Until the loop looks for `shell` the strays stay. */
  lemma {:induction false} EarlyStrays(os: Os, s: SupState, defs: seq<ServiceDef>, n: nat, met: Pid)
    requires os.Valid() && Owned(s) && UniqueNames(defs) && n <= FirstNamed(defs, SHELL)
    ensures StraysSoFar(s, ReloadLoop(os, s, defs, n).sup, defs, n, met)
  {
    if n == 0 {
      NoStraysYet(s, defs, met);
    } else {
      EarlyStrays(os, s, defs, n - 1, met);
      StraysStep(os, s, ReloadLoop(os, s, defs, n - 1).sup, defs, n - 1, met);
    }
  }

  /** After that they stay too. */
  lemma {:induction false} LateStrays(os: Os, s: SupState, defs: seq<ServiceDef>, n: nat, met: Pid)
    requires os.Valid() && UniqueNames(defs) && FirstNamed(defs, SHELL) < n <= |defs|
    requires var j := FirstNamed(defs, SHELL); StraysSoFar(s, ReloadLoop(os, s, defs, j + 1).sup, defs, j + 1, met)
    ensures StraysSoFar(s, ReloadLoop(os, s, defs, n).sup, defs, n, met)
  {
    if n == FirstNamed(defs, SHELL) + 1 {
    } else {
      LateStrays(os, s, defs, n - 1, met);
      StraysStep(os, s, ReloadLoop(os, s, defs, n - 1).sup, defs, n - 1, met);
    }
  }

  lemma NoStraysYet(s: SupState, defs: seq<ServiceDef>, met: Pid)
    requires Owned(s)
    ensures StraysSoFar(s, s, defs, 0, met)
  {
  }

  /** After `k` definitions: the strays are those of the start, but for `met` once the loop has looked for `shell`,
      and they run as they did. */
  ghost predicate StraysSoFar(s: SupState, cur: SupState, defs: seq<ServiceDef>, k: nat, met: Pid) {
    && Owned(cur)
    && StrayShells(cur.services, defs) ==
         StrayShells(s.services, defs) - (if FirstNamed(defs, SHELL) < k then {met} else {})
    && forall p :: p in StrayShells(cur.services, defs) ==> cur.services[p] == s.services[p]
  }

  lemma StraysStep(os: Os, s: SupState, cur: SupState, defs: seq<ServiceDef>, k: nat, met: Pid)
    requires os.Valid() && UniqueNames(defs) && k < |defs| && StraysSoFar(s, cur, defs, k, met)
    requires k == FirstNamed(defs, SHELL) ==> met == os.pick(cur.kernel.t, Named(cur.services, SHELL))
    ensures StraysSoFar(s, ReloadOne(os, cur, defs[k]).sup, defs, k + 1, met)
  {
    TurnOwned(os, cur, defs[k]);
    TurnStrays(os, cur, defs[k], defs);
    assert defs[k].name == SHELL <==> FirstNamed(defs, SHELL) == k;
    StraysNext(s, cur, ReloadOne(os, cur, defs[k]).sup, defs, k, met,
               if defs[k].name == SHELL then {os.pick(cur.kernel.t, Named(cur.services, SHELL))} else {});
  }

  lemma TurnOwned(os: Os, s: SupState, d: ServiceDef)
    requires os.Valid() && Owned(s)
    ensures Owned(ReloadOne(os, s, d).sup)
  {
    var gone := ReloadOneTurn(os, s, d);
  }

  lemma StraysNext(s: SupState, cur: SupState, next: SupState, defs: seq<ServiceDef>, k: nat, met: Pid, out: set<Pid>)
    requires StraysSoFar(s, cur, defs, k, met) && Owned(next)
    requires out == if FirstNamed(defs, SHELL) == k then {met} else {}
    requires StrayShells(next.services, defs) == StrayShells(cur.services, defs) - out
    requires forall p :: p in StrayShells(next.services, defs) ==> next.services[p] == cur.services[p]
    ensures StraysSoFar(s, next, defs, k + 1, met)
  {
  }

  /** The entry a reload meets when it looks for the definition called `shell`. */
  ghost function Met(os: Os, s: SupState, defs: seq<ServiceDef>): Pid {
    MetInLoop(os, StopAll(os, s, Stale(s, defs)), defs)
  }

  /** A reload that configures a service called `shell` leaves exactly those strays running that it did not meet, as
      they were; any other reload leaves none. */
  lemma ReloadStrays(os: Os, s: SupState, defs: seq<ServiceDef>)
    requires os.Valid() && Owned(s) && UniqueNames(defs)
    ensures StrayShells(ReloadServices(os, s, defs).sup.services, defs) ==
            if SHELL in Names(defs) then StrayShells(s.services, defs) - {Met(os, s, defs)} else {}
    ensures var r := ReloadServices(os, s, defs).sup;
            forall p :: p in StrayShells(r.services, defs) ==> r.services[p] == s.services[p]
  {
    var s1 := StopAll(os, s, Stale(s, defs));
    LoopStrays(os, s1, defs);
    assert StrayShells(s1.services, defs) == if SHELL in Names(defs) then StrayShells(s.services, defs) else {};
    assert SHELL in Names(defs) <==> FirstNamed(defs, SHELL) < |defs|;
  }

  /** Nothing but `defs` and rescue shells runs. */
  ghost predicate OnlyThese(os: Os, services: Services, defs: seq<ServiceDef>) {
    forall p :: p in services ==> services[p].def in defs || (services[p].def == FallbackShell() && !os.NoFallback())
  }

  /** Whatever is refused, a reload ends with nothing but the given definitions and rescue shells exactly if it does
      not configure a service called `shell`, or met the only stray of that name. */
  lemma ReloadConformsExactly(os: Os, s: SupState, defs: seq<ServiceDef>)
    requires os.Valid() && Owned(s) && UniqueTracked(s.services, Exempt(os)) && UniqueNames(defs)
    ensures OnlyThese(os, ReloadServices(os, s, defs).sup.services, defs) <==>
            SHELL !in Names(defs) || StrayShells(s.services, defs) <= {Met(os, s, defs)}
  {
    var services := ReloadServices(os, s, defs).sup.services;
    ReloadConforms(os, s, defs);
    ReloadStrays(os, s, defs);
    assert OnlyThese(os, services, defs) <==> StrayShells(services, defs) == {} by {
      if StrayShells(services, defs) == {} {
        forall p | p in services
          ensures services[p].def in defs || (services[p].def == FallbackShell() && !os.NoFallback())
        {
          assert p !in StrayShells(services, defs);
        }
      }
    }
  }

  // ---------------------------------------------------------------- whole runs

  /** Like `Conforms`, but of entries called `shell` only rescue shells are exempt. */
  ghost predicate StrictlyConforms(os: Os, boot: seq<ServiceDef>, services: Services, current: seq<ServiceDef>) {
    forall p :: p in services ==> Rightful(os, boot, current, services[p].def)
  }

  ghost predicate Rightful(os: Os, boot: seq<ServiceDef>, current: seq<ServiceDef>, def: ServiceDef) {
    Carries(boot, current, def) || (def == FallbackShell() && !os.NoFallback())
  }

  /** The part of it about entries called `shell`. */
  ghost predicate ShellsConform(os: Os, boot: seq<ServiceDef>, services: Services, current: seq<ServiceDef>) {
    forall p :: p in services && services[p].def.name == SHELL ==> Rightful(os, boot, current, services[p].def)
  }

  /** A service called `shell` is defined as `shell`, or not at all. */
  ghost predicate ShellIs(defs: seq<ServiceDef>, shell: Option<ServiceDef>) {
    forall d :: d in defs && d.name == SHELL ==> shell == Some(d)
  }

  ghost predicate ShellInv(os: Os, boot: seq<ServiceDef>, st: Loop, shell: Option<ServiceDef>) {
    && ShellsConform(os, boot, st.sup.services, ServicesIn(st.cfg.services, st.target))
    && ShellIs(st.cfg.services, shell)
    && (st.watch.Some? ==> ShellIs(st.watch.value.previous.services, shell))
  }

  /** A definition called `shell` that is carried by one list is carried by every list that has the name. */
  lemma CarriedOn(boot: seq<ServiceDef>, prior: seq<ServiceDef>, defs: seq<ServiceDef>, shell: Option<ServiceDef>,
                  def: ServiceDef)
    requires ShellIs(prior, shell) && ShellIs(defs, shell) && SHELL in Names(defs)
    requires def.name == SHELL && Carries(boot, prior, def)
    ensures Carries(boot, defs, def)
  {
    var d :| d in defs && d.name == SHELL;
    if def !in prior {
      var i :| 0 <= i < |boot| && boot[i] in prior && EffectiveAfter(boot)[i] == def;
      assert boot[i] == d;
    }
  }

  lemma ReconciledShells(os: Os, boot: seq<ServiceDef>, s: SupState, prior: seq<ServiceDef>, defs: seq<ServiceDef>,
                         shell: Option<ServiceDef>)
    requires os.Valid() && Owned(s) && UniqueTracked(s.services, Exempt(os)) && UniqueNames(defs)
    requires ShellsConform(os, boot, s.services, prior) && ShellIs(prior, shell) && ShellIs(defs, shell)
    ensures ShellsConform(os, boot, ReloadServices(os, s, defs).sup.services, defs)
  {
    var services := ReloadServices(os, s, defs).sup.services;
    ReloadConforms(os, s, defs);
    ReloadStrays(os, s, defs);
    forall p | p in services && services[p].def.name == SHELL ensures Rightful(os, boot, defs, services[p].def) {
      if services[p].def != FallbackShell() && services[p].def !in defs {
        assert p in StrayShells(services, defs);
        assert p in StrayShells(s.services, defs) && SHELL in Names(defs);
        CarriedOn(boot, prior, defs, shell, services[p].def);
      }
    }
  }

  /** The same with the configuration it comes from. */
  lemma TargetShells(os: Os, boot: seq<ServiceDef>, st: Loop, all: seq<ServiceDef>, target: string,
                     shell: Option<ServiceDef>)
    requires os.Valid() && LoopInv(os, st, false) && ShellInv(os, boot, st, shell)
    requires UniqueNames(all) && ShellIs(all, shell)
    ensures ShellsConform(os, boot, ReloadServices(os, st.sup, ServicesIn(all, target)).sup.services,
                          ServicesIn(all, target))
  {
    ServicesInExact(all, target);
    ServicesInExact(st.cfg.services, st.target);
    ReconciledShells(os, boot, st.sup, ServicesIn(st.cfg.services, st.target), ServicesIn(all, target), shell);
  }

  lemma FewerShells(os: Os, boot: seq<ServiceDef>, a: Services, b: Services, current: seq<ServiceDef>)
    requires DefsFrom(a, b) && ShellsConform(os, boot, b, current)
    ensures ShellsConform(os, boot, a, current)
  {
    forall p | p in a && a[p].def.name == SHELL ensures Rightful(os, boot, current, a[p].def) {
      assert Holds(b, a[p].def);
    }
  }

  ghost predicate ShellInput(inp: Input, shell: Option<ServiceDef>) {
    inp.reload.Some? ==> ShellIs(inp.reload.value.0.services, shell)
  }

  lemma ReloadedShells(os: Os, boot: seq<ServiceDef>, st: Loop, newCfg: Configuration, newTimers: seq<TimerDef>,
                       shell: Option<ServiceDef>)
    requires os.Valid() && LoopInv(os, st, false) && ShellInv(os, boot, st, shell)
    requires UniqueNames(newCfg.services) && ShellIs(newCfg.services, shell)
    ensures ShellInv(os, boot, Reload(os, st, newCfg, newTimers), shell)
  {
    TargetShells(os, boot, st, newCfg.services, st.target, shell);
  }

  lemma IsolatedShells(os: Os, boot: seq<ServiceDef>, st: Loop, name: string, shell: Option<ServiceDef>)
    requires os.Valid() && LoopInv(os, st, false) && ShellInv(os, boot, st, shell)
    ensures ShellInv(os, boot, Isolate(os, st, name), shell)
  {
    TargetShells(os, boot, st, st.cfg.services, name, shell);
  }

  lemma ShellsBeforeDispatch(os: Os, boot: seq<ServiceDef>, st: Loop, inp: Input, shell: Option<ServiceDef>)
    requires os.Valid() && os.MonotoneClock() && LoopInv(os, st, false) && GoodInput(inp)
    requires ShellInv(os, boot, st, shell) && ShellInput(inp, shell)
    ensures ShellInv(os, boot, BeforeDispatch(os, st, inp), shell)
  {
    var reloaded := if inp.reload.Some? then Reload(os, st, inp.reload.value.0, inp.reload.value.1) else st;
    if inp.reload.Some? {
      ReloadPhase(os, st, inp.reload.value.0, inp.reload.value.1, false);
      ReloadedShells(os, boot, st, inp.reload.value.0, inp.reload.value.1, shell);
    }
    var isolated := if inp.isolate.Some? then Isolate(os, reloaded, inp.isolate.value) else reloaded;
    if inp.isolate.Some? {
      IsolatedShells(os, boot, reloaded, inp.isolate.value, shell);
    }
    assert ShellInv(os, boot, isolated, shell);
    PreparePhase(os, st, inp, false);
    WaitPhase(os, Prepare(os, st, inp), inp, false);
    var at := BeforeDispatch(os, st, inp);
    SameDefsFrom(at.sup.services, isolated.sup.services);
    FewerShells(os, boot, at.sup.services, isolated.sup.services, ServicesIn(at.cfg.services, at.target));
  }

  /** Where nothing is configured under the name, entries of the name are rescue shells whatever list is in force. */
  lemma OnlyRescueShells(os: Os, boot: seq<ServiceDef>, services: Services, prior: seq<ServiceDef>,
                         current: seq<ServiceDef>)
    requires ShellsConform(os, boot, services, prior) && ShellIs(prior, None) && ShellIs(boot, None)
    ensures ShellsConform(os, boot, services, current)
    ensures forall p :: p in services && services[p].def.name == SHELL ==> services[p].def == FallbackShell()
  {
    forall p | p in services && services[p].def.name == SHELL
      ensures services[p].def == FallbackShell() && !os.NoFallback()
    {
      assert Rightful(os, boot, prior, services[p].def);
      assert forall i :: 0 <= i < |boot| ==> boot[i] in boot && EffectiveAfter(boot)[i].name == boot[i].name;
    }
  }

  /** A rollback would be to the active target, or the name is not configured at all. */
  ghost predicate RollbackFits(os: Os, boot: seq<ServiceDef>, st: Loop, wait: WaitResult, shell: Option<ServiceDef>) {
    RollsBack(os, st, wait) ==> st.watch.value.target == st.target || (shell.None? && ShellIs(boot, None))
  }

  lemma DispatchedShells(os: Os, boot: seq<ServiceDef>, st: Loop, wait: WaitResult, graceWaits: seq<WaitResult>,
                         shell: Option<ServiceDef>)
    requires os.Valid() && os.MonotoneClock() && LoopInv(os, Reopened(st, wait), false) && Collected(st, wait)
    requires ShellInv(os, boot, st, shell) && RollbackFits(os, boot, st, wait, shell)
    requires !Dispatch(os, st, wait, graceWaits).stopped
    ensures ShellInv(os, boot, Dispatch(os, st, wait, graceWaits), shell)
  {
    if RollsBack(os, st, wait) {
      var gone := RolledBackFrom(os, st, wait, graceWaits);
      RolledBackShells(os, boot, st, gone, shell);
    } else {
      DispatchKeepsDefs(os, st, wait, graceWaits);
      KeptWatch(os, st, wait, graceWaits);
      var st' := Dispatch(os, st, wait, graceWaits);
      FewerShells(os, boot, st'.sup.services, st.sup.services, ServicesIn(st.cfg.services, st.target));
    }
  }

  lemma RolledBackShells(os: Os, boot: seq<ServiceDef>, st: Loop, gone: Loop, shell: Option<ServiceDef>)
    requires os.Valid() && LoopInv(os, gone, false) && ShellInv(os, boot, st, shell) && st.watch.Some?
    requires gone.watch == st.watch && gone.target == st.target && gone.cfg == st.cfg
    requires forall p :: p in gone.sup.services ==> p in st.sup.services && gone.sup.services[p] == st.sup.services[p]
    requires st.watch.value.target == st.target || (shell.None? && ShellIs(boot, None))
    ensures var previous := st.watch.value.previous.services;
            ShellsConform(os, boot,
                          ReloadServices(os, gone.sup, ServicesIn(previous, st.watch.value.target)).sup.services,
                          ServicesIn(previous, st.target))
  {
    var w := st.watch.value;
    TargetShells(os, boot, gone, w.previous.services, w.target, shell);
    if w.target != st.target {
      ServicesInExact(w.previous.services, w.target);
      OnlyRescueShells(os, boot,
                       ReloadServices(os, gone.sup, ServicesIn(w.previous.services, w.target)).sup.services,
                       ServicesIn(w.previous.services, w.target), ServicesIn(w.previous.services, st.target));
    }
  }

  lemma TurnShells(os: Os, boot: seq<ServiceDef>, st: Loop, inp: Input, shell: Option<ServiceDef>)
    requires os.Valid() && os.MonotoneClock() && LoopInv(os, st, false) && GoodInput(inp)
    requires ShellInv(os, boot, st, shell) && ShellInput(inp, shell) && !Turn(os, st, inp).stopped
    requires RollbackFits(os, boot, BeforeDispatch(os, st, inp), inp.wait, shell)
    ensures ShellInv(os, boot, Turn(os, st, inp), shell)
  {
    ShellsBeforeDispatch(os, boot, st, inp, shell);
    PreparePhase(os, st, inp, false);
    WaitPhase(os, Prepare(os, st, inp), inp, false);
    LookPhase(os, Wait(os, Prepare(os, st, inp), inp), inp.wait, false);
    DispatchedShells(os, boot, BeforeDispatch(os, st, inp), inp.wait, inp.graceWaits, shell);
  }

  /** In a conforming state a rollback is to the active target. */
  lemma ConformingFits(os: Os, boot: seq<ServiceDef>, st: Loop, inp: Input, shell: Option<ServiceDef>)
    requires os.Valid() && os.MonotoneClock() && LoopInv(os, st, false) && GoodInput(inp) && ConfInv(os, boot, st)
    requires os.NoFallback() || QuietInput(st, inp)
    ensures RollbackFits(os, boot, BeforeDispatch(os, st, inp), inp.wait, shell)
  {
    PreparePhase(os, st, inp, false);
    PrepareStep(os, boot, st, inp, false);
    var prepared, at := Prepare(os, st, inp), BeforeDispatch(os, st, inp);
    WaitPhase(os, prepared, inp, false);
    SameDefsFrom(at.sup.services, prepared.sup.services);
    FewerDefs(os, boot, prepared, at);
    if RollsBack(os, at, inp.wait) {
      assert Tracks(at.sup.services, at.sup.services[inp.wait.status.pid].def.name);
    }
  }

  /** What is said about the runs below: nothing is configured as `shell`, or the premises of `RunConforms` hold. */
  ghost predicate ShellRun(os: Os, boot: seq<ServiceDef>, trace: seq<Loop>, inputs: seq<Input>,
                           shell: Option<ServiceDef>)
  {
    && GoodRun(os, trace, inputs, false) && ShellInv(os, boot, trace[0], shell)
    && (forall i :: 0 <= i < |inputs| ==> ShellInput(inputs[i], shell))
    && (|| (shell.None? && ShellIs(boot, None))
        || (&& ConfInv(os, boot, trace[0])
            && (os.NoFallback() || forall i :: 0 <= i < |inputs| ==> QuietInput(trace[i], inputs[i]))))
  }

  lemma {:induction false} RunShells(os: Os, boot: seq<ServiceDef>, trace: seq<Loop>, inputs: seq<Input>, n: nat,
                                     shell: Option<ServiceDef>)
    requires ShellRun(os, boot, trace, inputs, shell) && n <= |inputs|
    ensures trace[n].stopped || ShellInv(os, boot, trace[n], shell)
  {
    if n == 0 {
    } else {
      RunShells(os, boot, trace, inputs, n - 1, shell);
      StepTo(os, trace, inputs, n);
      if !trace[n].stopped {
        RunKeepsInv(os, trace, inputs, n - 1, false);
        if !(shell.None? && ShellIs(boot, None)) {
          RunConforms(os, boot, trace, inputs, n - 1);
          ConformingFits(os, boot, trace[n - 1], inputs[n - 1], shell);
        }
        TurnShells(os, boot, trace[n - 1], inputs[n - 1], shell);
      }
    }
  }

  /** If every configuration of a run that has a service called `shell` has the same, in particular if none has, then
      of the tracked services only rescue shells are exempt from carrying a definition of the active target of the
      configuration in force. */
  lemma RunConformsStrictly(os: Os, boot: seq<ServiceDef>, trace: seq<Loop>, inputs: seq<Input>, n: nat,
                            shell: Option<ServiceDef>)
    requires ShellRun(os, boot, trace, inputs, shell) && n <= |inputs| && ConfInv(os, boot, trace[0])
    requires os.NoFallback() || forall i :: 0 <= i < |inputs| ==> QuietInput(trace[i], inputs[i])
    ensures trace[n].stopped || StrictlyConforms(os, boot, trace[n].sup.services,
                                                 ServicesIn(trace[n].cfg.services, trace[n].target))
  {
    RunShells(os, boot, trace, inputs, n, shell);
    RunConforms(os, boot, trace, inputs, n);
  }

  /** The state boot reaches satisfies what these theorems ask of the start of a run. */
  lemma BootedShells(os: Os, cfg: Configuration, timers: seq<TimerDef>, shell: Option<ServiceDef>)
    requires os.Valid() && os.MonotoneClock() && UniqueNames(cfg.services) && ShellIs(cfg.services, shell)
    ensures ShellInv(os, ServicesIn(cfg.services, cfg.defaultTarget), Booted(os, cfg, timers), shell)
  {
    var boot := ServicesIn(cfg.services, cfg.defaultTarget);
    ServicesInExact(cfg.services, cfg.defaultTarget);
    BootEstablishesInv(os, SupState(map[], Notify({}, map[]), Kernel(0, {})), boot);
    var st := Booted(os, cfg, timers);
    forall p | p in st.sup.services ensures Rightful(os, boot, boot, st.sup.services[p].def) {
      if st.sup.services[p].def in EffectiveAfter(boot) {
        var i :| 0 <= i < |boot| && EffectiveAfter(boot)[i] == st.sup.services[p].def;
        assert boot[i] in boot;
      }
    }
  }

  /** Where no configuration has a service called `shell` the watchdog verdicts are exact for every tracked pid. */
  lemma WatchdogsExactForAll(os: Os, boot: seq<ServiceDef>, trace: seq<Loop>, inputs: seq<Input>, n: nat, pid: Pid)
    requires GoodRun(os, trace, inputs, true) && n < |inputs|
    requires ShellRun(os, boot, trace, inputs, None) && ShellIs(boot, None)
    requires !trace[n].stopped && pid in Wait(os, Prepare(os, trace[n], inputs[n]), inputs[n]).sup.services
    ensures var s := Wait(os, Prepare(os, trace[n], inputs[n]), inputs[n]).sup;
            var e, now := s.services[pid], os.clock(s.kernel.t);
            pid in WatchdogKills(os, trace[n], inputs[n]) <==>
              && e.def.watchdogTimeout.Some?
              && now - (if e.heard.Some? then e.heard.value else e.startedAt) > e.def.watchdogTimeout.value
  {
    RunKeepsInv(os, trace, inputs, n, false);
    RunShells(os, boot, trace, inputs, n, None);
    ShellsBeforeDispatch(os, boot, trace[n], inputs[n], None);
    var at := BeforeDispatch(os, trace[n], inputs[n]);
    ServicesInExact(at.cfg.services, at.target);
    OnlyRescueShells(os, boot, at.sup.services, ServicesIn(at.cfg.services, at.target), []);
    WatchdogsExact(os, trace, inputs, n, pid);
  }
}
