/** `reload_services`: reconciling the running set with a new list of definitions. */
module Reconcile {
  import opened Config
  import opened Machine
  import opened Supervision
  import opened BootTheorems

  ghost predicate UniqueTracked(services: Services, exempt: set<string>) {
    forall p, q :: p in services && q in services && p != q && services[p].def.name == services[q].def.name ==>
                     services[p].def.name in exempt
  }

  /** Every tracked pid is a child that was not reaped. */
  ghost predicate Owned(s: SupState) {
    s.services.Keys <= s.kernel.children
  }

  ghost predicate Holds(services: Services, d: ServiceDef) {
    exists p :: p in services && services[p].def == d
  }

  ghost predicate FreshEntry(os: Os, e: Supervised, d: ServiceDef) {
    && e.restartTimes == [] && e.chain == [] && e.heard == None
    && (e.def == d || (e.def == FallbackShell() && !os.NoFallback() && !os.AlwaysStarts([d])))
  }

  ghost predicate Kept(s: SupState, gone: set<Pid>, p: Pid) {
    p in s.services && p !in gone
  }

  /** What one turn of the loop does: nothing if the entry it finds already runs `d`; otherwise it takes out
      `gone`, the one entry found, if any, and adds at most one fresh entry. */
  ghost predicate Reconciles(os: Os, s: SupState, d: ServiceDef, r: Reloaded, gone: set<Pid>) {
    && Owned(r.sup) && s.kernel.t <= r.sup.kernel.t
    && gone <= Named(s.services, d.name) && |gone| <= 1
    && (forall p :: Kept(s, gone, p) ==> p in r.sup.services && r.sup.services[p] == s.services[p])
    && (forall p :: p in r.sup.services && !Kept(s, gone, p) ==> FreshEntry(os, r.sup.services[p], d))
    && (forall p, q :: p in r.sup.services && q in r.sup.services && !Kept(s, gone, p) && !Kept(s, gone, q) ==> p == q)
    && (if r.touched == [] then r.sup == s && gone == {} && Holds(s.services, d)
        else
          && r.touched == [d.name]
          && (Named(s.services, d.name) == {} || |gone| == 1)
          && (forall p :: p in gone ==> s.services[p].def != d)
          && (os.AlwaysStarts([d]) ==> Holds(r.sup.services, d)))
  }

  lemma SpawnTurn(os: Os, s: SupState, s1: SupState, d: ServiceDef, gone: set<Pid>)
    requires os.Valid() && Owned(s) && gone <= Named(s.services, d.name) && |gone| <= 1
    requires s1.services == s.services - gone && Owned(s1) && s.kernel.t <= s1.kernel.t
    requires Named(s.services, d.name) == {} || |gone| == 1
    requires forall p :: p in gone ==> s.services[p].def != d
    ensures Reconciles(os, s, d, Reloaded(SpawnWithHistory(os, s1, d, [], []), [d.name]), gone)
  {
    var s2 := SpawnWithHistory(os, s1, d, [], []);
    SpawnEffect(os, s1, d, [], []);
    if s2.services != s1.services {
      var p :| NewEntry(os, s1, s2, p, d, [], []);
      assert FreshEntry(os, s2.services[p], d);
    }
    if os.AlwaysStarts([d]) {
      assert os.spawn(s1.kernel.t, d, s1.kernel.children).Started?;
      var p := os.spawn(s1.kernel.t, d, s1.kernel.children).pid;
      assert p in s2.services && s2.services[p].def == d;
    }
  }

  lemma ReloadOneTurn(os: Os, s: SupState, d: ServiceDef) returns (gone: set<Pid>)
    requires os.Valid() && Owned(s)
    ensures Reconciles(os, s, d, ReloadOne(os, s, d), gone)
  {
    var found := Named(s.services, d.name);
    gone := {};
    if found == {} {
      assert s.services - gone == s.services;
      SpawnTurn(os, s, s, d, gone);
    } else {
      var pid := os.pick(s.kernel.t, found);
      assert pid in found;
      DefsEqualIsEquality(s.services[pid].def, d);
      if s.services[pid].def != d {
        gone := {pid};
        SpawnTurn(os, s, s.(services := s.services - {pid}, kernel := StopKernel(os, s.kernel, {pid})), d, gone);
      }
    }
  }

  // ---------------------------------------------------------------- any reload

  /** Entries are unique up to `exempt`, and each comes from the processed definitions or kept a name that is
      still to be processed. */
  ghost predicate Partly(s: Services, r: Services, exempt: set<string>, done: seq<ServiceDef>) {
    && UniqueTracked(r, exempt)
    && (forall p :: p in r && r[p].def.name !in exempt ==>
          r[p].def in done || (r[p].def.name !in Names(done) && p in s && s[p] == r[p]))
  }

  lemma PartlyStep(os: Os, s: Services, cur: SupState, done: seq<ServiceDef>, d: ServiceDef, r: Reloaded,
                   gone: set<Pid>)
    requires Reconciles(os, cur, d, r, gone) && Partly(s, cur.services, Exempt(os), done) && d.name !in Names(done)
    ensures Partly(s, r.sup.services, Exempt(os), done + [d])
  {
    if d.name !in Exempt(os) {
      SharedNameGone(os, cur, d, r, gone);
    }
    TurnKeepsUnique(os, cur, d, r, gone);
    TurnCarries(os, s, cur, done, d, r, gone);
  }

  lemma TurnKeepsUnique(os: Os, cur: SupState, d: ServiceDef, r: Reloaded, gone: set<Pid>)
    requires Reconciles(os, cur, d, r, gone) && UniqueTracked(cur.services, Exempt(os))
    requires d.name !in Exempt(os) && r.touched != [] ==> Named(cur.services, d.name) == gone
    ensures UniqueTracked(r.sup.services, Exempt(os))
  {
    forall p, q | p in r.sup.services && q in r.sup.services && p != q
                  && r.sup.services[p].def.name == r.sup.services[q].def.name
      ensures r.sup.services[p].def.name in Exempt(os)
    {
      assert !Kept(cur, gone, p) || !Kept(cur, gone, q) || cur.services[p].def.name == cur.services[q].def.name;
    }
  }

  lemma TurnCarries(os: Os, s: Services, cur: SupState, done: seq<ServiceDef>, d: ServiceDef, r: Reloaded,
                    gone: set<Pid>)
    requires Reconciles(os, cur, d, r, gone) && Partly(s, cur.services, Exempt(os), done)
    requires d.name !in Exempt(os) && r.touched != [] ==> Named(cur.services, d.name) == gone
    ensures forall p :: p in r.sup.services && r.sup.services[p].def.name !in Exempt(os) ==>
              || r.sup.services[p].def in done + [d]
              || (r.sup.services[p].def.name !in Names(done + [d]) && p in s && s[p] == r.sup.services[p])
  {
    assert Names(done + [d]) == Names(done) + {d.name};
    forall p | p in r.sup.services && r.sup.services[p].def.name !in Exempt(os)
      ensures r.sup.services[p].def in done + [d]
              || (r.sup.services[p].def.name !in Names(done + [d]) && p in s && s[p] == r.sup.services[p])
    {
      var e := r.sup.services[p];
      if Kept(cur, gone, p) {
        assert cur.services[p] == e;
        assert e.def.name == d.name ==> p in Named(cur.services, d.name);
      }
    }
  }

  /** A name that entries may not share is gone from the kept entries once its entry is taken out. */
  lemma SharedNameGone(os: Os, cur: SupState, d: ServiceDef, r: Reloaded, gone: set<Pid>)
    requires Reconciles(os, cur, d, r, gone) && UniqueTracked(cur.services, Exempt(os)) && d.name !in Exempt(os)
    ensures r.touched != [] ==> Named(cur.services, d.name) == gone
  {
    if r.touched != [] && Named(cur.services, d.name) != {} {
      var g := Member(gone);
      forall p | p in Named(cur.services, d.name) ensures p in gone {
        assert p == g;
      }
    }
  }

  lemma NewName(defs: seq<ServiceDef>, n: nat)
    requires UniqueNames(defs) && 0 < n <= |defs|
    ensures defs[n - 1].name !in Names(defs[..n - 1])
    ensures defs[..n] == defs[..n - 1] + [defs[n - 1]]
  {
  }

  lemma StartsEach(os: Os, defs: seq<ServiceDef>, i: nat)
    requires os.AlwaysStarts(defs) && i < |defs|
    ensures os.AlwaysStarts([defs[i]])
  {
  }

  lemma PartlyTurn(os: Os, s: Services, cur: SupState, done: seq<ServiceDef>, d: ServiceDef)
    requires os.Valid() && Owned(cur) && Partly(s, cur.services, Exempt(os), done) && d.name !in Names(done)
    ensures var s' := ReloadOne(os, cur, d).sup;
            Owned(s') && cur.kernel.t <= s'.kernel.t && Partly(s, s'.services, Exempt(os), done + [d])
  {
    var gone := ReloadOneTurn(os, cur, d);
    PartlyStep(os, s, cur, done, d, ReloadOne(os, cur, d), gone);
  }

  lemma {:induction false} ReloadLoopPartly(os: Os, s: SupState, defs: seq<ServiceDef>, n: nat)
    requires os.Valid() && Owned(s) && UniqueTracked(s.services, Exempt(os)) && UniqueNames(defs) && n <= |defs|
    ensures var s' := ReloadLoop(os, s, defs, n).sup;
            Owned(s') && s.kernel.t <= s'.kernel.t && Partly(s.services, s'.services, Exempt(os), defs[..n])
  {
    if n == 0 {
    } else {
      ReloadLoopPartly(os, s, defs, n - 1);
      NewName(defs, n);
      PartlyTurn(os, s.services, ReloadLoop(os, s, defs, n - 1).sup, defs[..n - 1], defs[n - 1]);
    }
  }

  /** Any reload, whatever is spawned or refused: it keeps ownership and uniqueness, and every tracked service
      outside the exempt names carries a definition of the new list. */
  lemma ReloadConforms(os: Os, s: SupState, defs: seq<ServiceDef>)
    requires os.Valid() && Owned(s) && UniqueTracked(s.services, Exempt(os)) && UniqueNames(defs)
    ensures var s' := ReloadServices(os, s, defs).sup;
            && Owned(s')
            && s.kernel.t <= s'.kernel.t
            && UniqueTracked(s'.services, Exempt(os))
            && (forall p :: p in s'.services && s'.services[p].def.name !in Exempt(os) ==> s'.services[p].def in defs)
  {
    var s1 := StopAll(os, s, Stale(s, defs));
    assert forall p :: p in s1.services ==> p in s.services && s1.services[p] == s.services[p];
    ReloadLoopPartly(os, s1, defs, |defs|);
    assert defs[..|defs|] == defs;
  }

  // ---------------------------------------------------------------- reloads under refusals

  /** What a spawn changes about who runs a definition whose name no rescue shell answers to. */
  lemma SpawnHolds(os: Os, s: SupState, d: ServiceDef, fails: set<string>, e: ServiceDef)
    requires os.Valid() && Owned(s) && RefusesExactly(os, [d], fails) && e.name !in Exempt(os)
    ensures Holds(SpawnWithHistory(os, s, d, [], []).services, e) <==>
            Holds(s.services, e) || (e == d && d.name !in fails)
  {
    var s' := SpawnWithHistory(os, s, d, [], []);
    var answer := os.spawn(s.kernel.t, d, s.kernel.children);
    assert Fresh(answer, s.kernel.children) && (os.NoFallback() ==> NoShell(d, answer));
    assert answer.Refused? <==> d.name in fails by { assert d in [d]; }
    if Holds(s.services, e) {
      var p :| p in s.services && s.services[p].def == e;
      assert p in s'.services && s'.services[p].def == e;
    }
    if answer.Started? {
      assert s'.services[answer.pid].def == d;
    }
  }

  lemma ReloadOneHolds(os: Os, s: SupState, d: ServiceDef, fails: set<string>, e: ServiceDef)
    requires os.Valid() && Owned(s) && UniqueTracked(s.services, Exempt(os)) && RefusesExactly(os, [d], fails)
    requires e.name !in Exempt(os) && (e.name == d.name ==> e == d)
    ensures Holds(ReloadOne(os, s, d).sup.services, e) <==> Holds(s.services, e) || (e == d && d.name !in fails)
  {
    var found := Named(s.services, d.name);
    if found == {} {
      SpawnHolds(os, s, d, fails, e);
    } else {
      var pid := os.pick(s.kernel.t, found);
      assert pid in found;
      DefsEqualIsEquality(s.services[pid].def, d);
      if s.services[pid].def != d {
        var stopped := s.(services := s.services - {pid}, kernel := StopKernel(os, s.kernel, {pid}));
        SpawnHolds(os, stopped, d, fails, e);
        StoppedHolds(os, s, stopped, pid, d, e);
      }
    }
  }

  /** Taking out an entry that runs another definition of the name does not matter to who runs `e`. */
  lemma StoppedHolds(os: Os, s: SupState, stopped: SupState, pid: Pid, d: ServiceDef, e: ServiceDef)
    requires UniqueTracked(s.services, Exempt(os)) && e.name !in Exempt(os) && (e.name == d.name ==> e == d)
    requires pid in s.services && s.services[pid].def.name == d.name && s.services[pid].def != d
    requires stopped.services == s.services - {pid}
    ensures Holds(stopped.services, e) <==> Holds(s.services, e)
  {
    if Holds(s.services, e) {
      var p :| p in s.services && s.services[p].def == e;
      assert p in stopped.services && stopped.services[p].def == e;
    }
  }

  /** What holds at the start and survives every turn holds of the reconciliation loop. */
  lemma {:induction false} ReloadLoopKeeps(
      os: Os, s: SupState, defs: seq<ServiceDef>, n: nat, keeps: (SupState, nat) -> bool)
    requires n <= |defs| && keeps(s, 0)
    requires forall cur: SupState, k: nat :: keeps(cur, k) && k < n ==> keeps(ReloadOne(os, cur, defs[k]).sup, k + 1)
    ensures keeps(ReloadLoop(os, s, defs, n).sup, n)
  {
    if n == 0 {
    } else {
      ReloadLoopKeeps(os, s, defs, n - 1, keeps);
    }
  }

  lemma ReloadLoopHolds(os: Os, s: SupState, defs: seq<ServiceDef>, fails: set<string>, e: ServiceDef)
    requires os.Valid() && Owned(s) && UniqueTracked(s.services, Exempt(os)) && UniqueNames(defs)
    requires RefusesExactly(os, defs, fails) && e in defs && e.name !in Exempt(os)
    ensures HeldSoFar(os, s.services, ReloadLoop(os, s, defs, |defs|).sup, defs, |defs|, fails, e)
  {
    var keeps := (cur: SupState, k: nat) => HeldSoFar(os, s.services, cur, defs, k, fails, e);
    forall cur: SupState, k: nat | keeps(cur, k) && k < |defs| ensures keeps(ReloadOne(os, cur, defs[k]).sup, k + 1) {
      HoldsTurn(os, s.services, cur, defs, k, fails, e);
    }
    HeldAtStart(os, s, defs, fails, e);
    ReloadLoopKeeps(os, s, defs, |defs|, keeps);
  }

  /** After `k` definitions: `e` runs if it ran in `s`, or it was among those and is not refused. */
  ghost predicate HeldSoFar(os: Os, s: Services, cur: SupState, defs: seq<ServiceDef>, k: nat, fails: set<string>,
                            e: ServiceDef)
  {
    && k <= |defs| && Owned(cur) && Partly(s, cur.services, Exempt(os), defs[..k])
    && (Holds(cur.services, e) <==> Holds(s, e) || (e in defs[..k] && e.name !in fails))
  }

  lemma HeldAtStart(os: Os, s: SupState, defs: seq<ServiceDef>, fails: set<string>, e: ServiceDef)
    requires Owned(s) && UniqueTracked(s.services, Exempt(os))
    ensures HeldSoFar(os, s.services, s, defs, 0, fails, e)
  {
  }

  lemma HoldsTurn(os: Os, s: Services, cur: SupState, defs: seq<ServiceDef>, k: nat, fails: set<string>, e: ServiceDef)
    requires os.Valid() && UniqueNames(defs) && k < |defs| && HeldSoFar(os, s, cur, defs, k, fails, e)
    requires RefusesExactly(os, defs, fails) && e in defs && e.name !in Exempt(os)
    ensures HeldSoFar(os, s, ReloadOne(os, cur, defs[k]).sup, defs, k + 1, fails, e)
  {
    RefusesEach(os, defs, fails, k);
    NewName(defs, k + 1);
    PartlyTurn(os, s, cur, defs[..k], defs[k]);
    ReloadOneHolds(os, cur, defs[k], fails, e);
  }

  /** Under refusals that depend on the name alone, a reload leaves a definition of its list running exactly if it
      ran before or the system does not refuse it. */
  lemma ReloadHolds(os: Os, s: SupState, defs: seq<ServiceDef>, fails: set<string>, d: ServiceDef)
    requires os.Valid() && Owned(s) && UniqueTracked(s.services, Exempt(os)) && UniqueNames(defs)
    requires RefusesExactly(os, defs, fails) && d in defs && d.name !in Exempt(os)
    ensures Holds(ReloadServices(os, s, defs).sup.services, d) <==> Holds(s.services, d) || d.name !in fails
  {
    var s1 := StopAll(os, s, Stale(s, defs));
    assert forall p :: p in s1.services ==> p in s.services && s1.services[p] == s.services[p];
    ReloadLoopHolds(os, s1, defs, fails, d);
    assert defs[..|defs|] == defs;
    if Holds(s.services, d) {
      var p :| p in s.services && s.services[p].def == d;
      assert p in s1.services && s1.services[p].def == d;
    }
  }

  // ---------------------------------------------------------------- what exactly a reload touches

  /** The names, in order, of the definitions no entry runs. */
  ghost function Missing(services: Services, defs: seq<ServiceDef>): seq<string> {
    if defs == [] then []
    else
      var d := defs[|defs| - 1];
      Missing(services, defs[..|defs| - 1]) + if Holds(services, d) then [] else [d.name]
  }

  /** Nothing a reload of `defs` looks for is confused with a rescue shell: outside `exempt` no name is shared, the
      given names are outside, and a rescue shell cannot start or answers to an exempt name. */
  ghost predicate NoConfusion(os: Os, services: Services, defs: seq<ServiceDef>, exempt: set<string>) {
    && UniqueTracked(services, exempt)
    && Names(defs) !! exempt
    && (os.AlwaysStarts(defs) || Exempt(os) <= exempt)
  }

  /** A rescue shell started because some definition of `done` was refused. */
  ghost predicate Rescue(os: Os, e: Supervised, done: seq<ServiceDef>, exempt: set<string>) {
    e.def == FallbackShell() && SHELL in exempt && e.restartTimes == [] && !os.AlwaysStarts(done)
  }

  /** Where entry `p` of `r` comes from: untouched in `s`, started for one of `done`, or a rescue shell. */
  ghost predicate Accounted(os: Os, s: Services, r: Services, done: seq<ServiceDef>, exempt: set<string>, p: Pid)
    requires p in r
  {
    || (p in s && r[p] == s[p] && Untouched(s, done, p))
    || (r[p].def in done && r[p].restartTimes == [] && !Holds(s, r[p].def))
    || Rescue(os, r[p], done, exempt)
  }

  ghost predicate Exactly(os: Os, s: Services, r: Reloaded, done: seq<ServiceDef>, exempt: set<string>) {
    && UniqueTracked(r.sup.services, exempt)
    && (forall p :: p in s && Untouched(s, done, p) ==> p in r.sup.services && r.sup.services[p] == s[p])
    && (forall p :: p in r.sup.services ==> Accounted(os, s, r.sup.services, done, exempt, p))
    && (os.AlwaysStarts(done) ==> forall d :: d in done ==> Holds(r.sup.services, d))
    && r.touched == Missing(s, done)
  }

  lemma StartsParts(os: Os, done: seq<ServiceDef>, d: ServiceDef)
    ensures os.AlwaysStarts(done + [d]) <==> os.AlwaysStarts(done) && os.AlwaysStarts([d])
  {
    assert forall e :: e in done + [d] <==> e in done || e in [d];
  }

  lemma ExactlyStep(os: Os, s: Services, cur: Reloaded, done: seq<ServiceDef>, d: ServiceDef, r: Reloaded,
                    gone: set<Pid>, exempt: set<string>)
    requires Reconciles(os, cur.sup, d, r, gone) && Exactly(os, s, cur, done, exempt) && d.name !in Names(done)
    requires UniqueTracked(s, exempt) && d.name !in exempt && (os.AlwaysStarts([d]) || Exempt(os) <= exempt)
    ensures Exactly(os, s, Reloaded(r.sup, cur.touched + r.touched), done + [d], exempt)
  {
    StartsParts(os, done, d);
    TurnUnique(os, cur.sup, d, r, gone, exempt);
    ExactlyKept(os, s, cur, done, d, r, gone, exempt);
    ExactlyAccounted(os, s, cur, done, d, r, gone, exempt);
    if os.AlwaysStarts(done + [d]) {
      ExactlyCovers(os, cur, done, d, r, gone);
    }
    ExactlyTouched(os, s, cur, done, d, r, gone, exempt);
  }

  lemma ExactlyTouched(os: Os, s: Services, cur: Reloaded, done: seq<ServiceDef>, d: ServiceDef, r: Reloaded,
                       gone: set<Pid>, exempt: set<string>)
    requires Reconciles(os, cur.sup, d, r, gone) && Exactly(os, s, cur, done, exempt) && d.name !in Names(done)
    requires d.name !in exempt && (os.AlwaysStarts([d]) || Exempt(os) <= exempt)
    ensures cur.touched + r.touched == Missing(s, done + [d])
  {
    HeldIffFound(os, s, cur, done, d, exempt);
    TurnUnique(os, cur.sup, d, r, gone, exempt);
    assert (done + [d])[..|done|] == done;
  }

  lemma ExactlyCovers(os: Os, cur: Reloaded, done: seq<ServiceDef>, d: ServiceDef, r: Reloaded, gone: set<Pid>)
    requires Reconciles(os, cur.sup, d, r, gone) && d.name !in Names(done) && os.AlwaysStarts([d])
    requires forall e :: e in done ==> Holds(cur.sup.services, e)
    ensures forall e :: e in done + [d] ==> Holds(r.sup.services, e)
  {
    forall e | e in done ensures Holds(r.sup.services, e) {
      var p :| p in cur.sup.services && cur.sup.services[p].def == e;
      assert e.name in Names(done);
      assert Kept(cur.sup, gone, p);
    }
    assert Holds(r.sup.services, d);
  }

  /** Whether `d` is running is not affected by the definitions processed before it. */
  lemma HeldIffFound(os: Os, s: Services, cur: Reloaded, done: seq<ServiceDef>, d: ServiceDef, exempt: set<string>)
    requires Exactly(os, s, cur, done, exempt) && d.name !in Names(done) && d.name !in exempt
    ensures Holds(s, d) <==> Holds(cur.sup.services, d)
    ensures forall p :: p in Named(cur.sup.services, d.name) ==> p in s && s[p] == cur.sup.services[p]
  {
    if Holds(s, d) {
      var p :| p in s && s[p].def == d;
      assert p in cur.sup.services && cur.sup.services[p] == s[p];
    }
    forall p | p in Named(cur.sup.services, d.name) ensures p in s && s[p] == cur.sup.services[p] {
      assert cur.sup.services[p].def !in done;
      assert Accounted(os, s, cur.sup.services, done, exempt, p);
    }
    if Holds(cur.sup.services, d) {
      var p :| p in cur.sup.services && cur.sup.services[p].def == d;
      assert p in Named(cur.sup.services, d.name);
    }
  }

  lemma TurnUnique(os: Os, cur: SupState, d: ServiceDef, r: Reloaded, gone: set<Pid>, exempt: set<string>)
    requires Reconciles(os, cur, d, r, gone) && UniqueTracked(cur.services, exempt)
    requires d.name !in exempt && (os.AlwaysStarts([d]) || Exempt(os) <= exempt)
    ensures UniqueTracked(r.sup.services, exempt)
    ensures r.touched != [] ==> Named(cur.services, d.name) == gone
    ensures r.touched == [] <==> Holds(cur.services, d)
  {
    if r.touched != [] && Named(cur.services, d.name) != {} {
      var g := Member(gone);
      forall p | p in Named(cur.services, d.name) ensures p in gone {
        assert p == g;
      }
    }
    if Holds(cur.services, d) {
      var p :| p in cur.services && cur.services[p].def == d;
      assert p in Named(cur.services, d.name);
    }
    forall p, q | p in r.sup.services && q in r.sup.services && p != q
                  && r.sup.services[p].def.name == r.sup.services[q].def.name
      ensures r.sup.services[p].def.name in exempt
    {
      assert Kept(cur, gone, p) && cur.services[p].def.name == d.name ==> p in Named(cur.services, d.name);
      assert Kept(cur, gone, q) && cur.services[q].def.name == d.name ==> q in Named(cur.services, d.name);
    }
  }

  ghost predicate Untouched(s: Services, done: seq<ServiceDef>, p: Pid)
    requires p in s
  {
    s[p].def in done || s[p].def.name !in Names(done)
  }

  lemma ExactlyKept(os: Os, s: Services, cur: Reloaded, done: seq<ServiceDef>, d: ServiceDef, r: Reloaded,
                    gone: set<Pid>, exempt: set<string>)
    requires Reconciles(os, cur.sup, d, r, gone) && Exactly(os, s, cur, done, exempt) && d.name !in Names(done)
    ensures forall p :: p in s && Untouched(s, done + [d], p) ==> p in r.sup.services && r.sup.services[p] == s[p]
  {
    assert Names(done + [d]) == Names(done) + {d.name};
    forall p | p in s && Untouched(s, done + [d], p) ensures p in r.sup.services && r.sup.services[p] == s[p] {
      assert Untouched(s, done, p);
      assert p in cur.sup.services && cur.sup.services[p] == s[p];
      assert Kept(cur.sup, gone, p);
    }
  }

  lemma ExactlyAccounted(os: Os, s: Services, cur: Reloaded, done: seq<ServiceDef>, d: ServiceDef, r: Reloaded,
                         gone: set<Pid>, exempt: set<string>)
    requires Reconciles(os, cur.sup, d, r, gone) && Exactly(os, s, cur, done, exempt) && d.name !in Names(done)
    requires d.name !in exempt && (os.AlwaysStarts([d]) || Exempt(os) <= exempt)
    ensures forall p :: p in r.sup.services ==> Accounted(os, s, r.sup.services, done + [d], exempt, p)
  {
    HeldIffFound(os, s, cur, done, d, exempt);
    TurnUnique(os, cur.sup, d, r, gone, exempt);
    StartsParts(os, done, d);
    forall p | p in r.sup.services ensures Accounted(os, s, r.sup.services, done + [d], exempt, p) {
      if Kept(cur.sup, gone, p) {
        KeptEntry(os, s, cur, done, d, r, gone, exempt, p);
      } else {
        assert FreshEntry(os, r.sup.services[p], d);
        assert r.touched != [];
      }
    }
  }

  lemma KeptEntry(os: Os, s: Services, cur: Reloaded, done: seq<ServiceDef>, d: ServiceDef, r: Reloaded,
                  gone: set<Pid>, exempt: set<string>, p: Pid)
    requires Reconciles(os, cur.sup, d, r, gone) && Exactly(os, s, cur, done, exempt) && Kept(cur.sup, gone, p)
    requires r.touched != [] ==> Named(cur.sup.services, d.name) == gone
    requires d.name !in exempt && (os.AlwaysStarts(done + [d]) ==> os.AlwaysStarts(done))
    ensures Accounted(os, s, r.sup.services, done + [d], exempt, p)
  {
    assert Names(done + [d]) == Names(done) + {d.name};
    var e := cur.sup.services[p];
    assert r.sup.services[p] == e && Accounted(os, s, cur.sup.services, done, exempt, p);
    if e.def.name == d.name {
      assert p in Named(cur.sup.services, d.name);
      var q :| q in cur.sup.services && cur.sup.services[q].def == d;
      assert p == q;
    }
  }

  lemma ExactlyTurn(os: Os, s: Services, cur: Reloaded, done: seq<ServiceDef>, d: ServiceDef, exempt: set<string>)
    requires os.Valid() && Owned(cur.sup) && Exactly(os, s, cur, done, exempt) && d.name !in Names(done)
    requires UniqueTracked(s, exempt) && d.name !in exempt && (os.AlwaysStarts([d]) || Exempt(os) <= exempt)
    ensures var r := ReloadOne(os, cur.sup, d);
            Owned(r.sup) && Exactly(os, s, Reloaded(r.sup, cur.touched + r.touched), done + [d], exempt)
  {
    var gone := ReloadOneTurn(os, cur.sup, d);
    ExactlyStep(os, s, cur, done, d, ReloadOne(os, cur.sup, d), gone, exempt);
  }

  lemma {:induction false} ReloadLoopExactly(os: Os, s: SupState, defs: seq<ServiceDef>, n: nat, exempt: set<string>)
    requires os.Valid() && Owned(s) && UniqueNames(defs) && NoConfusion(os, s.services, defs, exempt) && n <= |defs|
    ensures var r := ReloadLoop(os, s, defs, n); Owned(r.sup) && Exactly(os, s.services, r, defs[..n], exempt)
  {
    if n == 0 {
    } else {
      ReloadLoopExactly(os, s, defs, n - 1, exempt);
      NewName(defs, n);
      if os.AlwaysStarts(defs) {
        StartsEach(os, defs, n - 1);
      }
      assert defs[n - 1].name in Names(defs);
      ExactlyTurn(os, s.services, ReloadLoop(os, s, defs, n - 1), defs[..n - 1], defs[n - 1], exempt);
    }
  }

  /** Whatever is refused, as long as no rescue shell is confused with a given definition: a reload leaves pid, start
      time and history alone where a given definition was already running, gives every other entry an empty history,
      returns exactly the names of the definitions that were not running, in listed order, and leaves nothing but
      given definitions and rescue shells. Where spawns succeed every given definition runs. */
  lemma ReloadTouches(os: Os, s: SupState, defs: seq<ServiceDef>, exempt: set<string>)
    requires os.Valid() && Owned(s) && UniqueNames(defs) && NoConfusion(os, s.services, defs, exempt)
    ensures var r := ReloadServices(os, s, defs);
            && Owned(r.sup)
            && UniqueTracked(r.sup.services, exempt)
            && r.touched == Missing(s.services, defs)
            && (forall p :: p in s.services && s.services[p].def in defs ==>
                  p in r.sup.services && r.sup.services[p] == s.services[p])
            && (forall p :: p in r.sup.services && !Holds(s.services, r.sup.services[p].def) ==>
                  r.sup.services[p].restartTimes == [])
            && (forall p :: p in r.sup.services ==>
                  r.sup.services[p].def in defs || Rescue(os, r.sup.services[p], defs, exempt))
            && (os.AlwaysStarts(defs) ==> forall d :: d in defs <==> Holds(r.sup.services, d))
  {
    var s1 := StopAll(os, s, Stale(s, defs));
    assert forall p :: p in s1.services ==> p in s.services && s1.services[p] == s.services[p];
    ReloadLoopExactly(os, s1, defs, |defs|, exempt);
    assert defs[..|defs|] == defs;
    ExactlyWhole(os, s.services, s1.services, ReloadServices(os, s, defs), defs, exempt);
  }

  /** With unique names and spawns that succeed, a reload ends with exactly the given definitions running, each
      once; it leaves pid, start time and restart history alone where the definition was already running, starts
      the others with an empty history, and returns exactly their names in listed order. */
  lemma ReloadExact(os: Os, s: SupState, defs: seq<ServiceDef>)
    requires os.Valid() && Owned(s) && UniqueTracked(s.services, {}) && UniqueNames(defs) && os.AlwaysStarts(defs)
    ensures var r := ReloadServices(os, s, defs);
            && Owned(r.sup)
            && UniqueTracked(r.sup.services, {})
            && (forall d :: d in defs <==> Holds(r.sup.services, d))
            && (forall p :: p in s.services && s.services[p].def in defs ==>
                  p in r.sup.services && r.sup.services[p] == s.services[p])
            && (forall p :: p in r.sup.services && !Holds(s.services, r.sup.services[p].def) ==>
                  r.sup.services[p].restartTimes == [])
            && r.touched == Missing(s.services, defs)
  {
    ReloadTouches(os, s, defs, {});
  }

  /** A loop that went exactly over all of `defs`, from the part of `s` that `defs` names. */
  lemma ExactlyWhole(os: Os, s: Services, s1: Services, r: Reloaded, defs: seq<ServiceDef>, exempt: set<string>)
    requires Exactly(os, s1, r, defs, exempt)
    requires forall p :: p in s1 <==> p in s && s[p].def.name in Names(defs)
    requires forall p :: p in s1 ==> s1[p] == s[p]
    ensures r.touched == Missing(s, defs)
    ensures forall p :: p in s && s[p].def in defs ==> p in r.sup.services && r.sup.services[p] == s[p]
    ensures forall p :: p in r.sup.services && !Holds(s, r.sup.services[p].def) ==> r.sup.services[p].restartTimes == []
    ensures forall p :: p in r.sup.services ==>
              r.sup.services[p].def in defs || Rescue(os, r.sup.services[p], defs, exempt)
    ensures os.AlwaysStarts(defs) ==> forall d :: d in defs <==> Holds(r.sup.services, d)
  {
    forall d | d in defs ensures Holds(s, d) <==> Holds(s1, d) {
      if Holds(s, d) {
        var p :| p in s && s[p].def == d;
        assert p in s1;
      }
    }
    MissingSame(s, s1, defs);
    forall p | p in r.sup.services
      ensures r.sup.services[p].def in defs || Rescue(os, r.sup.services[p], defs, exempt)
      ensures !Holds(s, r.sup.services[p].def) ==> r.sup.services[p].restartTimes == []
    {
      assert Accounted(os, s1, r.sup.services, defs, exempt, p);
    }
    forall p | p in s && s[p].def in defs ensures p in r.sup.services && r.sup.services[p] == s[p] {
      assert p in s1 && Untouched(s1, defs, p);
    }
  }

  lemma {:induction false} MissingSame(a: Services, b: Services, defs: seq<ServiceDef>)
    requires forall d :: d in defs ==> (Holds(a, d) <==> Holds(b, d))
    ensures Missing(a, defs) == Missing(b, defs)
  {
    if defs == [] {
    } else {
      MissingSame(a, b, defs[..|defs| - 1]);
    }
  }

  lemma {:induction false} NothingMissing(services: Services, defs: seq<ServiceDef>)
    requires forall d :: d in defs ==> Holds(services, d)
    ensures Missing(services, defs) == []
  {
    if defs == [] {
    } else {
      NothingMissing(services, defs[..|defs| - 1]);
    }
  }

  /** Reloading the same definitions again touches nothing. */
  lemma ReloadTwice(os: Os, s: SupState, defs: seq<ServiceDef>)
    requires os.Valid() && Owned(s) && UniqueTracked(s.services, {}) && UniqueNames(defs) && os.AlwaysStarts(defs)
    ensures var once := ReloadServices(os, s, defs).sup;
            var twice := ReloadServices(os, once, defs);
            twice.touched == [] && twice.sup.services == once.services
  {
    ReloadExact(os, s, defs);
    SettledStays(os, ReloadServices(os, s, defs).sup, defs);
  }

  lemma SettledStays(os: Os, once: SupState, defs: seq<ServiceDef>)
    requires os.Valid() && Owned(once) && UniqueTracked(once.services, {}) && UniqueNames(defs) && os.AlwaysStarts(defs)
    requires forall d :: d in defs <==> Holds(once.services, d)
    ensures var twice := ReloadServices(os, once, defs); twice.touched == [] && twice.sup.services == once.services
  {
    ReloadExact(os, once, defs);
    NothingMissing(once.services, defs);
    var twice := ReloadServices(os, once, defs).sup;
    forall p | p in once.services ensures p in twice.services && twice.services[p] == once.services[p] {
      assert Holds(once.services, once.services[p].def);
    }
    forall p | p in twice.services ensures p in once.services {
      assert Holds(twice.services, twice.services[p].def);
      var q :| q in once.services && once.services[q].def == twice.services[p].def;
      assert p == q;
    }
  }
}
