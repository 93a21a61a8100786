/** Where the tracked instances come from: each entry is one that was there before, or was started since by a question
    to the system that nothing else was started by. */
module Entries {
  import opened Config
  import opened Machine
  import opened Supervision
  import opened Folding
  import opened BootTheorems
  import opened Backoff
  import opened Targets
  import opened Timers
  import opened EventLoop
  import opened Reconcile
  import opened Runs
  import opened Rollback
  import opened Guarantees

  /** Started between two readings; the ping it has not sent yet is not recorded. */
  ghost predicate Newborn(os: Os, from: nat, to: nat, e: Supervised) {
    from <= e.born < to && e.heard == None && e.startedAt == os.clock(e.born)
  }

  /** No automatic restart so far. */
  ghost predicate Afresh(e: Supervised) {
    e.restartTimes == [] && e.chain == []
  }

  /** Every entry of `b` was in `a`, unchanged, or was started since; afresh, where that is asked. */
  ghost predicate Grown(os: Os, a: SupState, b: SupState, afresh: bool) {
    && a.kernel.t <= b.kernel.t
    && forall p :: p in b.services ==>
         || (p in a.services && b.services[p] == a.services[p])
         || (Newborn(os, a.kernel.t, b.kernel.t, b.services[p]) && (afresh ==> Afresh(b.services[p])))
  }

  lemma GrownTrans(os: Os, a: SupState, b: SupState, c: SupState, afresh: bool)
    requires Grown(os, a, b, afresh) && Grown(os, b, c, afresh)
    ensures Grown(os, a, c, afresh)
  {
  }

  lemma SpawnGrown(os: Os, s: SupState, d: ServiceDef, history: seq<Instant>, chain: seq<Instant>)
    ensures Grown(os, s, SpawnWithHistory(os, s, d, history, chain), history == [] && chain == [])
  {
  }

  /** One spawn, case by case: what was reported under the name is forgotten; the process is tracked with the
      definition and history asked for; if a critical service is refused and a shell starts, the shell is tracked in
      its place, whoever else runs; nothing else changes. */
  lemma SpawnExact(os: Os, s: SupState, d: ServiceDef, history: seq<Instant>, chain: seq<Instant>)
    ensures var s', answer := SpawnWithHistory(os, s, d, history, chain), os.spawn(s.kernel.t, d, s.kernel.children);
            && (forall x :: x in s'.notify.ready <==> x in s.notify.ready && x != d.name)
            && (forall x :: x in s'.notify.pings <==> x in s.notify.pings && x != d.name)
            && (answer.Started? ==>
                  && answer.pid in s'.services && s'.services[answer.pid].def == d
                  && s'.services[answer.pid].restartTimes == history && s'.services[answer.pid].chain == chain
                  && Newborn(os, s.kernel.t, s'.kernel.t, s'.services[answer.pid])
                  && s'.services == s.services[answer.pid := s'.services[answer.pid]])
            && (answer.Refused? && d.critical && answer.shell.Some? ==>
                  var p := answer.shell.value;
                  && p in s'.services && s'.services[p].def.name == "shell" && s'.services[p].def.path == "/bin/sh"
                  && s'.services[p].def.critical && Afresh(s'.services[p])
                  && Newborn(os, s.kernel.t, s'.kernel.t, s'.services[p])
                  && s'.services == s.services[p := s'.services[p]])
            && (answer.Refused? && !(d.critical && answer.shell.Some?) ==> s'.services == s.services)
  {
  }

  // ---------------------------------------------------------------- boot

  lemma BootOneGrown(os: Os, b: Boot, d: ServiceDef, configured: set<string>)
    ensures Grown(os, b.sup, BootOne(os, b, d, configured).sup, true)
  {
    SpawnGrown(os, b.sup.(kernel := b.sup.kernel.Advance(|d.afterReady|)), d, [], []);
  }

  lemma {:induction false} BootLoopGrown(os: Os, s: SupState, order: seq<ServiceDef>, configured: set<string>, n: nat)
    requires n <= |order|
    ensures Grown(os, s, BootLoop(os, s, order, configured, n).sup, true)
  {
    if n == 0 {
    } else {
      BootLoopGrown(os, s, order, configured, n - 1);
      var b := BootLoop(os, s, order, configured, n - 1);
      BootOneGrown(os, b, order[n - 1], configured);
      GrownTrans(os, s, b.sup, BootLoop(os, s, order, configured, n).sup, true);
    }
  }

  /** Every service that boot leaves tracked was started by it, with an empty history and no ping recorded. */
  lemma BootFresh(os: Os, s: SupState, defs: seq<ServiceDef>)
    requires s.services == map[]
    ensures var b := SpawnAll(os, s, defs).sup;
            forall p :: p in b.services ==>
              Afresh(b.services[p]) && Newborn(os, s.kernel.t, b.kernel.t, b.services[p])
  {
    BootLoopGrown(os, s, BootOrder(defs), Names(defs), |BootOrder(defs)|);
  }

  // ---------------------------------------------------------------- reload and exit

  lemma ReloadOneGrown(os: Os, s: SupState, d: ServiceDef)
    ensures Grown(os, s, ReloadOne(os, s, d).sup, true)
  {
    var pid := os.pick(s.kernel.t, Named(s.services, d.name));
    SpawnGrown(os, s, d, [], []);
    SpawnGrown(os, s.(services := s.services - {pid}, kernel := StopKernel(os, s.kernel, {pid})), d, [], []);
  }

  lemma {:induction false} ReloadLoopGrown(os: Os, s: SupState, defs: seq<ServiceDef>, n: nat)
    requires n <= |defs|
    ensures Grown(os, s, ReloadLoop(os, s, defs, n).sup, true)
  {
    if n == 0 {
    } else {
      ReloadLoopGrown(os, s, defs, n - 1);
      var cur := ReloadLoop(os, s, defs, n - 1).sup;
      ReloadOneGrown(os, cur, defs[n - 1]);
      GrownTrans(os, s, cur, ReloadLoop(os, s, defs, n).sup, true);
    }
  }

  lemma ReloadGrown(os: Os, s: SupState, defs: seq<ServiceDef>)
    ensures Grown(os, s, ReloadServices(os, s, defs).sup, true)
  {
    ReloadLoopGrown(os, StopAll(os, s, Stale(s, defs)), defs, |defs|);
    GrownTrans(os, s, StopAll(os, s, Stale(s, defs)), ReloadServices(os, s, defs).sup, true);
  }

  /** An exit adds at most the service that exited, with one more restart in its chain. */
  lemma ExitGrown(os: Os, s: SupState, status: WaitStatus)
    ensures var s' := HandleExit(os, s, status).0;
            && Grown(os, s, s', false)
            && forall p :: p in s'.services ==>
                 || (p in s.services && s'.services[p] == s.services[p])
                 || (&& IsExit(status) && status.pid in s.services
                     && s'.services[p].def == s.services[status.pid].def
                     && s'.services[p].chain == s.services[status.pid].chain + [os.clock(s.kernel.t)])
  {
    if IsExit(status) && status.pid in s.services {
      var e, now := s.services[status.pid], os.clock(s.kernel.t);
      var gone := SupState(s.services - {status.pid}, s.notify.Forget(e.def.name), s.kernel.Advance(1));
      SpawnGrown(os, gone, e.def, Recent(e.restartTimes, now) + [now], e.chain + [now]);
    }
  }

  // ---------------------------------------------------------------- one turn

  lemma {:induction false} StartAllLater(os: Os, c: Clocked, names: seq<string>, services: seq<ServiceDef>, n: nat)
    requires n <= |names|
    ensures c.kernel.t <= StartAll(os, c, names, services, n).kernel.t
  {
    if n == 0 {
    } else {
      StartAllLater(os, c, names, services, n - 1);
    }
  }

  lemma RequestsGrown(os: Os, st: Loop, inp: Input)
    ensures Grown(os, st.sup, AfterRequests(os, st, inp).sup, true)
  {
    var reloaded := if inp.reload.Some? then Reload(os, st, inp.reload.value.0, inp.reload.value.1) else st;
    if inp.reload.Some? {
      ReloadGrown(os, st.sup, ServicesIn(inp.reload.value.0.services, st.target));
    }
    if inp.isolate.Some? {
      ReloadGrown(os, reloaded.sup, ServicesIn(reloaded.cfg.services, inp.isolate.value));
    }
    GrownTrans(os, st.sup, reloaded.sup, AfterRequests(os, st, inp).sup, true);
  }

  lemma PrepareGrown(os: Os, st: Loop, inp: Input)
    ensures Grown(os, st.sup, Prepare(os, st, inp).sup, true)
  {
    RequestsGrown(os, st, inp);
    var asked := AfterRequests(os, st, inp);
    TickLater(os, Clocked(asked.sched, asked.sup.kernel), asked.timerDefs, asked.cfg.services);
    GrownTrans(os, st.sup, asked.sup, Prepare(os, st, inp).sup, true);
  }

  lemma TickLater(os: Os, c: Clocked, timers: seq<TimerDef>, services: seq<ServiceDef>)
    ensures c.kernel.t <= Tick(os, c, timers, services).kernel.t
  {
    if timers != [] {
      var c1 := Touch(os, c);
      var due := Due(os, c1.kernel, c1.sched, timers, |timers|);
      StartAllLater(os, Clocked(c1.sched, c1.kernel.Advance(|timers|)), due, services, |due|);
    }
  }

  /** Only what was heard of an entry may differ. */
  ghost predicate SameButHeard(a: Services, b: Services) {
    a.Keys == b.Keys && forall p :: p in a ==> b[p] == a[p].(heard := b[p].heard)
  }

  lemma {:induction false} ReceiveAllSame(os: Os, s: SupState, ds: seq<Datagram>, n: nat)
    requires n <= |ds|
    ensures SameButHeard(s.services, ReceiveAll(os, s, ds, n).services)
    ensures s.kernel.t <= ReceiveAll(os, s, ds, n).kernel.t
  {
    if n == 0 {
    } else {
      ReceiveAllSame(os, s, ds, n - 1);
    }
  }

  lemma WaitSame(os: Os, st: Loop, inp: Input)
    ensures SameButHeard(st.sup.services, Wait(os, st, inp).sup.services)
    ensures st.sup.kernel.t <= Wait(os, st, inp).sup.kernel.t
  {
    ReceiveAllSame(os, st.sup.(kernel := Collect(st.sup.kernel, inp.wait)), inp.datagrams, |inp.datagrams|);
  }

  lemma CheckGrown(os: Os, st: Loop, failed: Option<string>)
    ensures Grown(os, st.sup, CheckWatch(os, st, failed).sup, true)
  {
    if st.watch.Some? {
      ReloadGrown(os, st.sup, ServicesIn(st.watch.value.previous.services, st.watch.value.target));
    }
  }

  lemma GrownAnyway(os: Os, a: SupState, b: SupState)
    requires Grown(os, a, b, true)
    ensures Grown(os, a, b, false)
  {
  }

  lemma SuperviseGrown(os: Os, st: Loop, status: WaitStatus, graceWaits: seq<WaitResult>)
    ensures Grown(os, st.sup, Supervise(os, st, status, graceWaits).sup, false)
  {
    var (sup, outcome) := HandleExit(os, st.sup, status);
    var next := st.(sup := sup);
    ExitGrown(os, st.sup, status);
    var failed := if outcome == Continue then None else Some(outcome.name);
    CheckGrown(os, next, failed);
    GrownAnyway(os, next.sup, CheckWatch(os, next, failed).sup);
    GrownTrans(os, st.sup, next.sup, CheckWatch(os, next, failed).sup, false);
    GraceKeeps(sup.services, graceWaits);
    GrownTrans(os, st.sup, next.sup, Stop(next, graceWaits).sup, false);
  }

  lemma DispatchGrown(os: Os, st: Loop, wait: WaitResult, graceWaits: seq<WaitResult>)
    ensures Grown(os, st.sup, Dispatch(os, st, wait, graceWaits).sup, false)
  {
    if wait.Status? {
      CheckGrown(os, st, None);
      SuperviseGrown(os, st, wait.status, graceWaits);
      if IsExit(wait.status) {
        var next := AfterReap(os, st, wait.status.pid);
        CheckGrown(os, next, None);
        SuperviseGrown(os, next, wait.status, graceWaits);
        GrownTrans(os, st.sup, next.sup, Supervise(os, next, wait.status, graceWaits).sup, false);
      }
    }
  }

  // ---------------------------------------------------------------- in which order things start

  /** Every entry of `b` was in `a`, unchanged, or was started since, for `d` or as a rescue shell. */
  ghost predicate StartedFor(os: Os, a: SupState, b: SupState, d: ServiceDef) {
    && a.kernel.t <= b.kernel.t
    && forall p :: p in b.services ==>
         || (p in a.services && b.services[p] == a.services[p])
         || (a.kernel.t <= b.services[p].born < b.kernel.t
             && (b.services[p].def == d || (b.services[p].def == FallbackShell() && !os.NoFallback())))
  }

  lemma SpawnFor(os: Os, s: SupState, d: ServiceDef, history: seq<Instant>, chain: seq<Instant>)
    ensures StartedFor(os, s, SpawnWithHistory(os, s, d, history, chain), d)
  {
    assert os.NoFallback() ==> NoShell(d, os.spawn(s.kernel.t, d, s.kernel.children));
  }

  lemma BootOneFor(os: Os, b: Boot, d: ServiceDef, configured: set<string>)
    ensures StartedFor(os, b.sup, BootOne(os, b, d, configured).sup, d)
  {
    SpawnFor(os, b.sup.(kernel := b.sup.kernel.Advance(|d.afterReady|)), d, [], []);
  }

  lemma ReloadOneFor(os: Os, s: SupState, d: ServiceDef)
    ensures StartedFor(os, s, ReloadOne(os, s, d).sup, d)
  {
    var pid := os.pick(s.kernel.t, Named(s.services, d.name));
    SpawnFor(os, s, d, [], []);
    SpawnFor(os, s.(services := s.services - {pid}, kernel := StopKernel(os, s.kernel, {pid})), d, [], []);
  }

  /** Entry `p` is not one of `base`. */
  ghost predicate IsNew(base: Services, cur: SupState, p: Pid) {
    p in cur.services && !(p in base && cur.services[p] == base[p])
  }

  /** Of the first `n` definitions `d` comes before `e`; rescue shells share neither's name. */
  ghost predicate Precedes(os: Os, defs: seq<ServiceDef>, n: nat, d: ServiceDef, e: ServiceDef)
    requires n <= |defs|
  {
    && d.name !in Exempt(os) && e.name !in Exempt(os)
    && exists i, j :: 0 <= i < j < n && defs[i] == d && defs[j] == e
  }

  lemma PrecedesStep(os: Os, defs: seq<ServiceDef>, n: nat, d: ServiceDef, e: ServiceDef)
    requires n < |defs| && UniqueNames(defs) && Precedes(os, defs, n + 1, d, e)
    ensures d != defs[n] && (e != defs[n] ==> Precedes(os, defs, n, d, e))
  {
    var i, j :| 0 <= i < j < n + 1 && defs[i] == d && defs[j] == e;
  }

  /** After the first `n` definitions: the new entries were started before now, in listed order. */
  ghost predicate InListedOrder(os: Os, base: Services, cur: SupState, defs: seq<ServiceDef>, n: nat) {
    && n <= |defs|
    && (forall p :: IsNew(base, cur, p) ==> cur.services[p].born < cur.kernel.t)
    && (forall p, q :: IsNew(base, cur, p) && IsNew(base, cur, q)
                       && Precedes(os, defs, n, cur.services[p].def, cur.services[q].def) ==>
          cur.services[p].born < cur.services[q].born)
    && (forall p :: IsNew(base, cur, p) ==>
          cur.services[p].def in defs[..n] || (cur.services[p].def == FallbackShell() && !os.NoFallback()))
  }

  lemma PairStep(os: Os, base: Services, cur: SupState, next: SupState, defs: seq<ServiceDef>, n: nat, p: Pid, q: Pid)
    requires n < |defs| && UniqueNames(defs) && InListedOrder(os, base, cur, defs, n)
    requires StartedFor(os, cur, next, defs[n]) && IsNew(base, next, p) && IsNew(base, next, q)
    requires next.services[p].def.name !in Exempt(os) && next.services[q].def.name !in Exempt(os)
    requires next.services[p].def != defs[n]
    requires next.services[q].def != defs[n] ==> Precedes(os, defs, n, next.services[p].def, next.services[q].def)
    ensures next.services[p].born < next.services[q].born
  {
    assert p in cur.services && next.services[p] == cur.services[p];
    assert IsNew(base, cur, p);
    if q in cur.services && next.services[q] == cur.services[q] {
      assert IsNew(base, cur, q);
    }
  }

  lemma InOrderStep(os: Os, base: Services, cur: SupState, next: SupState, defs: seq<ServiceDef>, n: nat)
    requires n < |defs| && UniqueNames(defs) && InListedOrder(os, base, cur, defs, n)
    requires StartedFor(os, cur, next, defs[n])
    ensures InListedOrder(os, base, next, defs, n + 1)
  {
    assert defs[..n + 1] == defs[..n] + [defs[n]];
    forall p, q | IsNew(base, next, p) && IsNew(base, next, q)
                  && Precedes(os, defs, n + 1, next.services[p].def, next.services[q].def)
      ensures next.services[p].born < next.services[q].born
    {
      PrecedesStep(os, defs, n, next.services[p].def, next.services[q].def);
      PairStep(os, base, cur, next, defs, n, p, q);
    }
    forall p | IsNew(base, next, p)
      ensures next.services[p].born < next.kernel.t
      ensures next.services[p].def in defs[..n + 1] || (next.services[p].def == FallbackShell() && !os.NoFallback())
    {
      assert p in cur.services && next.services[p] == cur.services[p] ==> IsNew(base, cur, p);
    }
  }

  /** Boot starts services in the order it computed. */
  lemma BootStartsInOrder(os: Os, s: SupState, defs: seq<ServiceDef>)
    requires s.services == map[] && UniqueNames(defs)
    ensures InListedOrder(os, map[], SpawnAll(os, s, defs).sup, BootOrder(defs), |BootOrder(defs)|)
  {
    var order, names := BootOrder(defs), Names(defs);
    OrderFacts(defs);
    var keeps := (b: Boot, k: nat) => InListedOrder(os, map[], b.sup, order, k);
    forall b: Boot, k: nat | keeps(b, k) && k < |order| ensures keeps(BootOne(os, b, order[k], names), k + 1) {
      BootOneFor(os, b, order[k], names);
      InOrderStep(os, map[], b.sup, BootOne(os, b, order[k], names).sup, order, k);
    }
    BootLoopKeeps(os, s, order, names, |order|, keeps);
  }

  /** A reload starts what it starts in the order of its list. */
  lemma ReloadStartsInOrder(os: Os, s: SupState, defs: seq<ServiceDef>)
    requires UniqueNames(defs)
    ensures InListedOrder(os, s.services, ReloadServices(os, s, defs).sup, defs, |defs|)
  {
    var s1 := StopAll(os, s, Stale(s, defs));
    var keeps := (cur: SupState, k: nat) => InListedOrder(os, s.services, cur, defs, k);
    forall cur: SupState, k: nat | keeps(cur, k) && k < |defs| ensures keeps(ReloadOne(os, cur, defs[k]).sup, k + 1) {
      ReloadOneFor(os, cur, defs[k]);
      InOrderStep(os, s.services, cur, ReloadOne(os, cur, defs[k]).sup, defs, k);
    }
    assert forall p :: !IsNew(s.services, s1, p);
    ReloadLoopKeeps(os, s1, defs, |defs|, keeps);
  }

  // ---------------------------------------------------------------- rescue shells

  /** The system can always start a shell. */
  ghost predicate ShellsStart(os: Os) {
    forall t, d, kids :: HasShell(os.spawn(t, d, kids))
  }

  predicate HasShell(a: SpawnAnswer) {
    a.Refused? ==> a.shell.Some?
  }

  lemma RescueOne(os: Os, b: Boot, d: ServiceDef, configured: set<string>)
    requires os.Valid() && b.sup.services.Keys <= b.sup.kernel.children && ShellsStart(os) && d.critical
    requires d.name in BootOne(os, b, d, configured).refused && d.name !in b.refused
    ensures Holds(BootOne(os, b, d, configured).sup.services, FallbackShell())
  {
    var waited := b.sup.(kernel := b.sup.kernel.Advance(|d.afterReady|));
    var answer := os.spawn(waited.kernel.t, d, waited.kernel.children);
    assert HasShell(answer);
    assert BootOne(os, b, d, configured).sup.services[answer.shell.value].def == FallbackShell();
  }

  lemma BootOneKeeps(os: Os, b: Boot, d: ServiceDef, configured: set<string>)
    requires os.Valid() && b.sup.services.Keys <= b.sup.kernel.children
    ensures Holds(b.sup.services, FallbackShell()) ==>
              Holds(BootOne(os, b, d, configured).sup.services, FallbackShell())
  {
    if Holds(b.sup.services, FallbackShell()) {
      var p :| p in b.sup.services && b.sup.services[p].def == FallbackShell();
      SpawnEffect(os, b.sup.(kernel := b.sup.kernel.Advance(|d.afterReady|)), d, [], []);
      assert p in BootOne(os, b, d, configured).sup.services;
    }
  }

  /** Every critical service of the first `n` that was refused has left a rescue shell running. */
  ghost predicate Rescued(b: Boot, order: seq<ServiceDef>, n: nat) {
    n <= |order| && forall k :: 0 <= k < n && order[k].critical && order[k].name in b.refused ==>
                                  Holds(b.sup.services, FallbackShell())
  }

  lemma RescuedStep(os: Os, b: Boot, order: seq<ServiceDef>, configured: set<string>, n: nat)
    requires os.Valid() && ShellsStart(os) && n < |order| && NewAt(order, n) && Rescued(b, order, n)
    requires b.sup.services.Keys <= b.sup.kernel.children && b.refused <= Names(order[..n])
    ensures Rescued(BootOne(os, b, order[n], configured), order, n + 1)
  {
    var b' := BootOne(os, b, order[n], configured);
    BootOneKeeps(os, b, order[n], configured);
    forall k | 0 <= k < n + 1 && order[k].critical && order[k].name in b'.refused
      ensures Holds(b'.sup.services, FallbackShell())
    {
      if k == n {
        RescueOne(os, b, order[n], configured);
      } else {
        assert order[k] in order[..n];
      }
    }
  }

  ghost predicate RescuedSoFar(b: Boot, order: seq<ServiceDef>, configured: set<string>, n: nat) {
    n <= |order| && Closed(b, configured) && b.refused <= Names(order[..n]) && Rescued(b, order, n)
  }

  lemma RescuedTurn(os: Os, b: Boot, order: seq<ServiceDef>, configured: set<string>, n: nat)
    requires os.Valid() && ShellsStart(os) && n < |order| && NewAt(order, n) && RescuedSoFar(b, order, configured, n)
    ensures RescuedSoFar(BootOne(os, b, order[n], configured), order, configured, n + 1)
  {
    BootOneClosed(os, b, order[n], configured);
    RescuedStep(os, b, order, configured, n);
    assert order[..n + 1] == order[..n] + [order[n]];
  }

  lemma BootRescuesAll(os: Os, s: SupState, order: seq<ServiceDef>, configured: set<string>)
    requires os.Valid() && ShellsStart(os) && s.services == map[] && EachNew(order)
    ensures RescuedSoFar(BootLoop(os, s, order, configured, |order|), order, configured, |order|)
  {
    var keeps := (b: Boot, k: nat) => RescuedSoFar(b, order, configured, k);
    assert keeps(Boot(s, {}, [], {}), 0);
    forall b: Boot, k: nat | keeps(b, k) && k < |order| ensures keeps(BootOne(os, b, order[k], configured), k + 1) {
      assert NewAt(order, k);
      RescuedTurn(os, b, order, configured, k);
    }
    BootLoopKeeps(os, s, order, configured, |order|, keeps);
  }

  /** A critical service whose spawn is refused at boot leaves a rescue shell running. */
  lemma BootRescues(os: Os, s: SupState, defs: seq<ServiceDef>, d: ServiceDef)
    requires os.Valid() && ShellsStart(os) && s.services == map[] && UniqueNames(defs)
    requires d in defs && d.critical && d.name in SpawnAll(os, s, defs).refused
    ensures Holds(SpawnAll(os, s, defs).sup.services, FallbackShell())
  {
    var order := BootOrder(defs);
    OrderFacts(defs);
    BootRescuesAll(os, s, order, Names(defs));
    var i :| 0 <= i < |defs| && defs[i] == d;
    var e := EffectiveAfter(defs)[i];
    assert e in order && e.critical && e.name == d.name;
  }

  // ---------------------------------------------------------------- where an entry comes from

  /** What becomes of an entry of the state in which a wait result is dispatched. */
  ghost predicate Stays(at: Loop, after: Loop, p: Pid) {
    p in at.sup.services && p in after.sup.services && after.sup.services[p] == at.sup.services[p]
  }

  /** Entry `p` is the service whose exit was handled, restarted: one more restart, at the reading at which the exit
      was handled. */
  ghost predicate Restarted(os: Os, at: Loop, wait: WaitResult, after: Loop, p: Pid) {
    && Exits(at, wait) && !RollsBack(os, at, wait) && p in after.sup.services
    && Newborn(os, at.sup.kernel.t, after.sup.kernel.t, after.sup.services[p])
    && var gone := at.sup.services[wait.status.pid];
       && after.sup.services[p].def == gone.def
       && after.sup.services[p].chain == gone.chain + [os.clock(AfterReap(os, at, wait.status.pid).sup.kernel.t)]
  }

  /** Entry `p` was brought back by a rollback. */
  ghost predicate BroughtIn(os: Os, at: Loop, wait: WaitResult, after: Loop, p: Pid) {
    && RollsBack(os, at, wait) && p in after.sup.services && Afresh(after.sup.services[p])
    && Newborn(os, at.sup.kernel.t, after.sup.kernel.t, after.sup.services[p])
  }

  /** After a turn that does not end the loop every tracked entry was there when the wait result was dispatched, or is
      the exited service restarted, or was brought in by a rollback. */
  lemma DispatchOrigin(os: Os, at: Loop, wait: WaitResult, graceWaits: seq<WaitResult>)
    requires !Dispatch(os, at, wait, graceWaits).stopped
    ensures var after := Dispatch(os, at, wait, graceWaits);
            && at.sup.kernel.t <= after.sup.kernel.t
            && forall p :: p in after.sup.services ==>
                 Stays(at, after, p) || Restarted(os, at, wait, after, p) || BroughtIn(os, at, wait, after, p)
  {
    DispatchGrown(os, at, wait, graceWaits);
    if RollsBack(os, at, wait) {
      RollbackOrigin(os, at, wait, graceWaits);
    } else if Exits(at, wait) {
      DispatchExit(os, at, wait, graceWaits);
      var next := AfterReap(os, at, wait.status.pid);
      SupervisedOnly(os, next, wait.status, graceWaits);
      ExitGrown(os, next.sup, wait.status);
    } else {
      DispatchNoExit(os, at, wait, graceWaits);
    }
  }

  lemma RollbackOrigin(os: Os, at: Loop, wait: WaitResult, graceWaits: seq<WaitResult>)
    requires RollsBack(os, at, wait)
    ensures var after := Dispatch(os, at, wait, graceWaits);
            forall p :: p in after.sup.services ==> Stays(at, after, p) || BroughtIn(os, at, wait, after, p)
  {
    DispatchExit(os, at, wait, graceWaits);
    var next := AfterReap(os, at, wait.status.pid);
    var w := at.watch.value;
    ReloadGrown(os, HandleExit(os, next.sup, wait.status).0, ServicesIn(w.previous.services, w.target));
  }

  // ---------------------------------------------------------------- restarts, read off the exits of a run

  /** The automatic restarts of the instance that runs as `p` at loop head `n`. */
  ghost function RestartsOf(os: Os, trace: seq<Loop>, inputs: seq<Input>, n: nat, p: Pid): seq<Instant>
    requires n <= |inputs| && |trace| == |inputs| + 1
    decreases n, 0
  {
    if n == 0 || p !in trace[n].sup.services then []
    else
      var at, wait := BeforeDispatch(os, trace[n - 1], inputs[n - 1]), inputs[n - 1].wait;
      if trace[n].sup.services[p].born < at.sup.kernel.t then RestartsBefore(os, trace, inputs, n - 1, p)
      else if Exits(at, wait) && !RollsBack(os, at, wait) then
        RestartsBefore(os, trace, inputs, n - 1, wait.status.pid)
        + [os.clock(AfterReap(os, at, wait.status.pid).sup.kernel.t)]
      else []
  }

  /** Those of the instance that runs as `p` when turn `n` dispatches its wait result. */
  ghost function RestartsBefore(os: Os, trace: seq<Loop>, inputs: seq<Input>, n: nat, p: Pid): seq<Instant>
    requires n < |inputs| && |trace| == |inputs| + 1
    decreases n, 1
  {
    var services := BeforeDispatch(os, trace[n], inputs[n]).sup.services;
    if p in services && services[p].born < trace[n].sup.kernel.t then RestartsOf(os, trace, inputs, n, p) else []
  }

  /** As boot leaves it: every entry afresh. */
  ghost predicate AllAfresh(s: SupState) {
    forall p :: p in s.services ==>
      Afresh(s.services[p]) && s.services[p].heard == None && s.services[p].born < s.kernel.t
  }

  lemma BootedAfresh(os: Os, cfg: Configuration, timers: seq<TimerDef>)
    ensures AllAfresh(Booted(os, cfg, timers).sup)
  {
    BootFresh(os, SupState(map[], Notify({}, map[]), Kernel(0, {})), ServicesIn(cfg.services, cfg.defaultTarget));
  }

  ghost predicate ChainsAtHead(os: Os, trace: seq<Loop>, inputs: seq<Input>, n: nat)
    requires n <= |inputs| && |trace| == |inputs| + 1
  {
    forall p :: p in trace[n].sup.services ==>
      && trace[n].sup.services[p].chain == RestartsOf(os, trace, inputs, n, p)
      && trace[n].sup.services[p].born < trace[n].sup.kernel.t
  }

  ghost predicate ChainsAtDispatch(os: Os, trace: seq<Loop>, inputs: seq<Input>, n: nat, at: Loop)
    requires n < |inputs| && |trace| == |inputs| + 1
  {
    forall p :: p in at.sup.services ==>
      && at.sup.services[p].chain == RestartsBefore(os, trace, inputs, n, p)
      && at.sup.services[p].born < at.sup.kernel.t
  }

  lemma PrepareOrigin(os: Os, st: Loop, inp: Input)
    ensures var at := BeforeDispatch(os, st, inp);
            && st.sup.kernel.t < at.sup.kernel.t
            && forall p :: p in at.sup.services ==>
                 || (&& p in st.sup.services
                     && at.sup.services[p] == st.sup.services[p].(heard := at.sup.services[p].heard))
                 || (st.sup.kernel.t <= at.sup.services[p].born < at.sup.kernel.t && Afresh(at.sup.services[p]))
  {
    PrepareGrown(os, st, inp);
    WaitSame(os, Prepare(os, st, inp), inp);
  }

  lemma ChainsReachDispatch(os: Os, trace: seq<Loop>, inputs: seq<Input>, n: nat)
    requires n < |inputs| && |trace| == |inputs| + 1 && ChainsAtHead(os, trace, inputs, n)
    ensures ChainsAtDispatch(os, trace, inputs, n, BeforeDispatch(os, trace[n], inputs[n]))
  {
    PrepareOrigin(os, trace[n], inputs[n]);
  }

  lemma ChainsReachHead(os: Os, trace: seq<Loop>, inputs: seq<Input>, n: nat, at: Loop)
    requires n < |inputs| && |trace| == |inputs| + 1 && ChainsAtDispatch(os, trace, inputs, n, at)
    requires at == BeforeDispatch(os, trace[n], inputs[n])
    requires trace[n + 1] == Dispatch(os, at, inputs[n].wait, inputs[n].graceWaits) && !trace[n + 1].stopped
    ensures ChainsAtHead(os, trace, inputs, n + 1)
  {
    DispatchOrigin(os, at, inputs[n].wait, inputs[n].graceWaits);
    var after := trace[n + 1];
    forall p | p in after.sup.services
      ensures after.sup.services[p].chain == RestartsOf(os, trace, inputs, n + 1, p)
      ensures after.sup.services[p].born < after.sup.kernel.t
    {
      assert Stays(at, after, p) || Restarted(os, at, inputs[n].wait, after, p)
             || BroughtIn(os, at, inputs[n].wait, after, p);
    }
  }

  /** In any run from a state as boot leaves it, the chain of every tracked instance is the list of the restarts that
      the exits of the run gave it. */
  lemma {:induction false} ChainIsRestarts(os: Os, trace: seq<Loop>, inputs: seq<Input>, n: nat)
    requires IsRun(os, trace, inputs) && n <= |inputs| && AllAfresh(trace[0].sup) && !trace[n].stopped
    ensures ChainsAtHead(os, trace, inputs, n)
  {
    if n == 0 {
    } else {
      StepTo(os, trace, inputs, n);
      ChainIsRestarts(os, trace, inputs, n - 1);
      ChainsReachDispatch(os, trace, inputs, n - 1);
      ChainsReachHead(os, trace, inputs, n - 1, BeforeDispatch(os, trace[n - 1], inputs[n - 1]));
    }
  }

  /** In every run from such a state: the supervisor gives up on a service exactly if it is not critical, its policy
      asks for a restart, and with this one the exits of the run would have given it six in the ten seconds ending
      now. */
  lemma GivesUpByExits(os: Os, trace: seq<Loop>, inputs: seq<Input>, n: nat, at: Loop)
    requires GoodRun(os, trace, inputs, false) && n < |inputs| && AllAfresh(trace[0].sup)
    requires !trace[n].stopped && at == BeforeDispatch(os, trace[n], inputs[n]) && Exits(at, inputs[n].wait)
    ensures var status := inputs[n].wait.status;
            var handled := AfterReap(os, at, status.pid).sup;
            var now := os.clock(handled.kernel.t);
            var restarts := RestartsBefore(os, trace, inputs, n, status.pid) + [now];
            HandleExit(os, handled, status).1.GaveUp? <==>
              && !at.sup.services[status.pid].def.critical
              && AsksRestart(at.sup.services[status.pid].def.restart, status)
              && CountIn(restarts, now - 10 * SECOND + 1, now + 1) > 5
  {
    GivesUpExactly(os, trace, inputs, n, at);
    ChainIsRestarts(os, trace, inputs, n);
    ChainsReachDispatch(os, trace, inputs, n);
  }
}
