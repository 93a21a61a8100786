/** Reloading the configuration that booted: boot stores folded definitions, a reload compares unfolded ones. */
module BootReload {
  import opened Config
  import opened Machine
  import opened Folding
  import opened Supervision
  import opened Reconcile
  import opened Targets
  import opened Timers
  import opened EventLoop
  import opened Invariants
  import opened Runs
  import opened Rollback

  /** The names of the services whose `after` list the boot-time folding enlarged, in listed order. */
  function Enlarged(defs: seq<ServiceDef>, folded: seq<ServiceDef>): seq<string>
    requires |defs| == |folded|
  {
    if defs == [] then []
    else
      var i := |defs| - 1;
      Enlarged(defs[..i], folded[..i]) + if defs[i].after == folded[i].after then [] else [defs[i].name]
  }

  lemma {:induction false} MissingIsEnlarged(services: Services, defs: seq<ServiceDef>, folded: seq<ServiceDef>)
    requires |defs| == |folded|
    requires forall i :: 0 <= i < |defs| ==> folded[i] == defs[i].(after := folded[i].after)
    requires forall i :: 0 <= i < |defs| ==> (Holds(services, defs[i]) <==> defs[i] == folded[i])
    ensures Missing(services, defs) == Enlarged(defs, folded)
  {
    if defs == [] {
    } else {
      var i := |defs| - 1;
      MissingIsEnlarged(services, defs[..i], folded[..i]);
    }
  }

  lemma {:induction false} EnlargedHas(defs: seq<ServiceDef>, folded: seq<ServiceDef>, j: nat)
    requires |defs| == |folded| && j < |defs| && defs[j].after != folded[j].after
    ensures defs[j].name in Enlarged(defs, folded)
  {
    var i := |defs| - 1;
    if j < i {
      EnlargedHas(defs[..i], folded[..i], j);
    }
  }

  /** The state runs exactly the services of `defs`, each with the definition the boot-time folding made of it, and
      perhaps rescue shells, whose name none of them has. */
  ghost predicate RunsFolded(os: Os, s: SupState, defs: seq<ServiceDef>) {
    && Owned(s) && UniqueTracked(s.services, Exempt(os)) && Names(defs) !! Exempt(os)
    && (forall p :: p in s.services ==>
          s.services[p].def in EffectiveAfter(defs) || (s.services[p].def == FallbackShell() && !os.NoFallback()))
    && (forall d :: d in defs ==> Tracks(s.services, d.name))
  }

  /** Reloading `defs` while their folded definitions run restarts exactly the services whose `after` list folding
      enlarged and leaves the others alone; so it touches nothing exactly when folding changed nothing. */
  lemma ReloadOfFolded(os: Os, s: SupState, defs: seq<ServiceDef>)
    requires os.Valid() && UniqueNames(defs) && RunsFolded(os, s, defs)
    ensures var r := ReloadServices(os, s, defs);
            && r.touched == Enlarged(defs, EffectiveAfter(defs))
            && (r.touched == [] <==> EffectiveAfter(defs) == defs)
            && (forall p :: p in s.services && s.services[p].def.name in Names(defs)
                            && s.services[p].def.name !in r.touched ==>
                  p in r.sup.services && r.sup.services[p] == s.services[p])
  {
    ReloadTouches(os, s, defs, Exempt(os));
    MissingFolded(os, s, defs);
    KeptUnfolded(os, s, defs);
  }

  lemma KeptUnfolded(os: Os, s: SupState, defs: seq<ServiceDef>)
    requires UniqueNames(defs) && RunsFolded(os, s, defs)
    ensures forall p :: p in s.services && s.services[p].def.name in Names(defs)
                        && s.services[p].def.name !in Enlarged(defs, EffectiveAfter(defs)) ==>
              s.services[p].def in defs
  {
    var folded := EffectiveAfter(defs);
    forall p | p in s.services && s.services[p].def.name in Names(defs)
               && s.services[p].def.name !in Enlarged(defs, folded)
      ensures s.services[p].def in defs
    {
      var i :| 0 <= i < |folded| && folded[i] == s.services[p].def;
      FoldingExact(defs, i);
      if defs[i].after != folded[i].after {
        EnlargedHas(defs, folded, i);
      }
    }
  }

  /** Which of `defs` run as they are: those that folding did not change. */
  lemma MissingFolded(os: Os, s: SupState, defs: seq<ServiceDef>)
    requires UniqueNames(defs) && RunsFolded(os, s, defs)
    ensures Missing(s.services, defs) == Enlarged(defs, EffectiveAfter(defs))
    ensures Enlarged(defs, EffectiveAfter(defs)) == [] <==> EffectiveAfter(defs) == defs
  {
    var folded := EffectiveAfter(defs);
    forall i | 0 <= i < |defs|
      ensures folded[i] == defs[i].(after := folded[i].after)
      ensures Holds(s.services, defs[i]) <==> defs[i] == folded[i]
    {
      FoldingExact(defs, i);
      HoldsUnfolded(os, s, defs, i);
    }
    MissingIsEnlarged(s.services, defs, folded);
    FoldedNothing(defs, folded);
  }

  lemma HoldsUnfolded(os: Os, s: SupState, defs: seq<ServiceDef>, i: nat)
    requires UniqueNames(defs) && i < |defs| && RunsFolded(os, s, defs)
    ensures Holds(s.services, defs[i]) <==> defs[i] == EffectiveAfter(defs)[i]
  {
    var folded := EffectiveAfter(defs);
    FoldingKeepsNames(defs);
    assert defs[i] in defs && defs[i].name in Names(defs);
    var p :| p in s.services && s.services[p].def.name == defs[i].name;
    SameNameSameDef(folded, s.services[p].def, folded[i]);
    if Holds(s.services, defs[i]) {
      var q :| q in s.services && s.services[q].def == defs[i];
      SameNameSameDef(folded, s.services[q].def, folded[i]);
    }
  }

  /** In any run from boot without a reload or an isolate, restarts included: while every booted service is tracked,
      reloading the booted configuration touches exactly the services whose `after` list folding enlarged, whatever
      is refused, as long as no booted service is called like a rescue shell that may be running. */
  lemma ReloadOfBoot(os: Os, cfg: Configuration, timers: seq<TimerDef>, trace: seq<Loop>, inputs: seq<Input>, n: nat,
                     newTimers: seq<TimerDef>)
    requires GoodRun(os, trace, inputs, false) && trace[0] == Booted(os, cfg, timers)
    requires n <= |inputs| && !trace[n].stopped && forall i :: 0 <= i < n ==> NoRequest(inputs[i])
    requires Names(ServicesIn(cfg.services, cfg.defaultTarget)) !! Exempt(os)
    requires forall d :: d in ServicesIn(cfg.services, cfg.defaultTarget) ==> Tracks(trace[n].sup.services, d.name)
    ensures var defs := ServicesIn(cfg.services, cfg.defaultTarget);
            var st := Reload(os, trace[n], cfg, newTimers);
            && st.watch.Some? && st.watch.value.touched == Enlarged(defs, EffectiveAfter(defs))
            && (st.watch.value.touched == [] <==> EffectiveAfter(defs) == defs)
            && (forall p :: p in trace[n].sup.services && trace[n].sup.services[p].def.name in Names(defs)
                            && trace[n].sup.services[p].def.name !in st.watch.value.touched ==>
                  p in st.sup.services && st.sup.services[p] == trace[n].sup.services[p])
  {
    RunsFoldedInRun(os, cfg, timers, trace, inputs, n);
    ReloadOfFolded(os, trace[n].sup, ServicesIn(cfg.services, cfg.defaultTarget));
  }

  lemma RunsFoldedInRun(os: Os, cfg: Configuration, timers: seq<TimerDef>, trace: seq<Loop>, inputs: seq<Input>, n: nat)
    requires GoodRun(os, trace, inputs, false) && trace[0] == Booted(os, cfg, timers)
    requires Names(ServicesIn(cfg.services, cfg.defaultTarget)) !! Exempt(os)
    requires n <= |inputs| && !trace[n].stopped && forall i :: 0 <= i < n ==> NoRequest(inputs[i])
    requires forall d :: d in ServicesIn(cfg.services, cfg.defaultTarget) ==> Tracks(trace[n].sup.services, d.name)
    ensures UniqueNames(ServicesIn(cfg.services, cfg.defaultTarget)) && trace[n].target == cfg.defaultTarget
    ensures RunsFolded(os, trace[n].sup, ServicesIn(cfg.services, cfg.defaultTarget))
  {
    var defs := ServicesIn(cfg.services, cfg.defaultTarget);
    ServicesInExact(cfg.services, cfg.defaultTarget);
    BootEstablishesInv(os, SupState(map[], Notify({}, map[]), Kernel(0, {})), defs);
    RunKeepsInv(os, trace, inputs, n, false);
    QuietRunKeepsDefs(os, trace, inputs, n);
    forall p | p in trace[n].sup.services
      ensures || trace[n].sup.services[p].def in EffectiveAfter(defs)
              || (trace[n].sup.services[p].def == FallbackShell() && !os.NoFallback())
    {
      assert Holds(trace[0].sup.services, trace[n].sup.services[p].def);
    }
  }

  predicate NoRequest(inp: Input) {
    inp.reload.None? && inp.isolate.None?
  }

  /** What a run without requests leaves alone: configuration and target, and no service gets another definition. */
  ghost predicate Undisturbed(before: Loop, after: Loop) {
    && DefsFrom(after.sup.services, before.sup.services)
    && after.watch.None? && after.target == before.target
  }

  lemma {:induction false} QuietRunKeepsDefs(os: Os, trace: seq<Loop>, inputs: seq<Input>, n: nat)
    requires GoodRun(os, trace, inputs, false) && n <= |inputs| && forall i :: 0 <= i < n ==> NoRequest(inputs[i])
    ensures trace[n].stopped || Undisturbed(trace[0], trace[n])
  {
    if n == 0 {
      SameDefsFrom(trace[0].sup.services, trace[0].sup.services);
    } else {
      QuietRunKeepsDefs(os, trace, inputs, n - 1);
      RunKeepsInv(os, trace, inputs, n - 1, false);
      StepTo(os, trace, inputs, n);
      if !trace[n].stopped {
        QuietTurnKeepsDefs(os, trace[n - 1], inputs[n - 1]);
        DefsFromTransitive(trace[n].sup.services, trace[n - 1].sup.services, trace[0].sup.services);
      }
    }
  }

  lemma QuietTurnKeepsDefs(os: Os, st: Loop, inp: Input)
    requires os.Valid() && os.MonotoneClock() && LoopInv(os, st, false) && GoodInput(inp)
    requires NoRequest(inp) && st.watch.None? && !Turn(os, st, inp).stopped
    ensures Undisturbed(st, Turn(os, st, inp))
  {
    PreparePhase(os, st, inp, false);
    WaitPhase(os, Prepare(os, st, inp), inp, false);
    LookPhase(os, Wait(os, Prepare(os, st, inp), inp), inp.wait, false);
    var at := BeforeDispatch(os, st, inp);
    SameDefsFrom(at.sup.services, st.sup.services);
    DispatchKeepsDefs(os, at, inp.wait, inp.graceWaits);
    KeptWatch(os, at, inp.wait, inp.graceWaits);
    DefsFromTransitive(Turn(os, st, inp).sup.services, at.sup.services, st.sup.services);
  }

  lemma FoldedNothing(defs: seq<ServiceDef>, folded: seq<ServiceDef>)
    requires |defs| == |folded|
    requires forall i :: 0 <= i < |defs| ==> folded[i] == defs[i].(after := folded[i].after)
    ensures Enlarged(defs, folded) == [] <==> folded == defs
  {
    EnlargedNothing(defs, folded);
    if Enlarged(defs, folded) == [] {
      assert forall i :: 0 <= i < |defs| ==> folded[i] == defs[i];
    }
  }

  lemma {:induction false} EnlargedNothing(defs: seq<ServiceDef>, folded: seq<ServiceDef>)
    requires |defs| == |folded|
    ensures Enlarged(defs, folded) == [] <==> forall j :: 0 <= j < |defs| ==> defs[j].after == folded[j].after
  {
    if defs == [] {
    } else {
      var i := |defs| - 1;
      EnlargedNothing(defs[..i], folded[..i]);
      assert forall j :: 0 <= j < i ==> defs[..i][j] == defs[j] && folded[..i][j] == folded[j];
    }
  }
}
