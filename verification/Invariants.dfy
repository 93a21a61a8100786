/** What every operation of the supervisor keeps. */
module Invariants {
  import opened Config
  import opened Machine
  import opened Supervision
  import opened BootTheorems
  import opened Reconcile
  import opened Backoff
  import opened Folding
  import opened EventLoop

  /** A tracked instance: its restart history is faithful to its chain of restarts, the chain is within budget,
      and, if every datagram so far came from a live instance, the ping recorded under its name is its own. */
  ghost predicate EntryOk(os: Os, e: Supervised, notify: Notify, now: Instant, timely: bool) {
    && FaithfulHistory(e.restartTimes, e.chain)
    && WithinBudget(e.chain)
    && UpTo(e.chain, now)
    && (timely && e.def.name !in Exempt(os) ==> e.heard == notify.LastPing(e.def.name))
  }

  ghost predicate EntriesOk(os: Os, s: SupState, timely: bool) {
    forall p :: p in s.services ==> EntryOk(os, s.services[p], s.notify, os.clock(s.kernel.t), timely)
  }

  /** The supervisor's invariant beside the pids `other` that belong to someone else, here the timers: tracked
      pids are children not yet reaped and none of the others, names are not shared, and instances are in order. */
  ghost predicate SupInv(os: Os, s: SupState, other: set<Pid>, timely: bool) {
    && Owned(s)
    && other <= s.kernel.children && other !! s.services.Keys
    && UniqueTracked(s.services, Exempt(os))
    && EntriesOk(os, s, timely)
  }

  lemma EmptyHistoryOk(now: Instant)
    ensures FaithfulHistory([], []) && WithinBudget([]) && UpTo([], now)
  {
  }

  // ---------------------------------------------------------------- spawning

  /** Spawning a service whose name nothing else uses, with a history that is in order, keeps the invariant. */
  lemma SpawnKeepsInv(os: Os, s: SupState, d: ServiceDef, history: seq<Instant>, chain: seq<Instant>, other: set<Pid>,
                      timely: bool)
    requires os.Valid() && os.MonotoneClock() && SupInv(os, s, other, timely)
    requires d.name in Exempt(os) || Named(s.services, d.name) == {}
    requires FaithfulHistory(history, chain) && WithinBudget(chain) && UpTo(chain, os.clock(s.kernel.t))
    ensures SupInv(os, SpawnWithHistory(os, s, d, history, chain), other, timely)
  {
    SpawnEffect(os, s, d, history, chain);
    SpawnEntries(os, s, d, history, chain, timely);
    SpawnUnique(os, s, d, history, chain);
  }

  lemma SpawnEntries(os: Os, s: SupState, d: ServiceDef, history: seq<Instant>, chain: seq<Instant>, timely: bool)
    requires os.Valid() && os.MonotoneClock() && EntriesOk(os, s, timely) && Owned(s)
    requires d.name in Exempt(os) || Named(s.services, d.name) == {}
    requires FaithfulHistory(history, chain) && WithinBudget(chain) && UpTo(chain, os.clock(s.kernel.t))
    ensures EntriesOk(os, SpawnWithHistory(os, s, d, history, chain), timely)
  {
    var s' := SpawnWithHistory(os, s, d, history, chain);
    SpawnEffect(os, s, d, history, chain);
    var now, later := os.clock(s.kernel.t), os.clock(s'.kernel.t);
    assert now <= later;
    EmptyHistoryOk(later);
    forall p | p in s'.services ensures EntryOk(os, s'.services[p], s'.notify, later, timely) {
      if p in s.services {
        assert s.services[p].def.name == d.name ==> p in Named(s.services, d.name);
        KeepEntry(os, s, p, d.name, later, timely);
      } else {
        assert s'.services[p].def == d || s'.services[p].def == FallbackShell();
      }
    }
  }

  lemma SpawnUnique(os: Os, s: SupState, d: ServiceDef, history: seq<Instant>, chain: seq<Instant>)
    requires os.Valid() && UniqueTracked(s.services, Exempt(os)) && Owned(s)
    requires d.name in Exempt(os) || Named(s.services, d.name) == {}
    ensures UniqueTracked(SpawnWithHistory(os, s, d, history, chain).services, Exempt(os))
  {
    var s' := SpawnWithHistory(os, s, d, history, chain);
    SpawnEffect(os, s, d, history, chain);
    forall p, q | p in s'.services && q in s'.services && p != q && s'.services[p].def.name == s'.services[q].def.name
      ensures s'.services[p].def.name in Exempt(os)
    {
      assert p in s.services && s.services[p].def.name == d.name ==> p in Named(s.services, d.name);
      assert q in s.services && s.services[q].def.name == d.name ==> q in Named(s.services, d.name);
    }
  }

  /** Forgetting what `name` reported does not touch entries of other names. */
  lemma KeepEntry(os: Os, s: SupState, p: Pid, name: string, later: Instant, timely: bool)
    requires p in s.services && EntryOk(os, s.services[p], s.notify, os.clock(s.kernel.t), timely)
    requires os.clock(s.kernel.t) <= later
    requires s.services[p].def.name != name || s.services[p].def.name in Exempt(os)
    ensures EntryOk(os, s.services[p], s.notify.Forget(name), later, timely)
  {
  }

  /** Taking out entries and forgetting their names keeps the invariant. */
  lemma DropKeepsInv(os: Os, s: SupState, s': SupState, gone: set<Pid>, names: set<string>, other: set<Pid>,
                     timely: bool)
    requires os.MonotoneClock() && SupInv(os, s, other, timely)
    requires s'.services == s.services - gone && s'.notify == s.notify.ForgetAll(names)
    requires s.kernel.t <= s'.kernel.t
    requires s.kernel.children - gone * s.services.Keys <= s'.kernel.children
    requires forall p :: p in s.services && p !in gone ==>
               s.services[p].def.name !in names || s.services[p].def.name in Exempt(os)
    ensures SupInv(os, s', other, timely)
  {
    assert os.clock(s.kernel.t) <= os.clock(s'.kernel.t);
    forall p | p in s'.services ensures EntryOk(os, s'.services[p], s'.notify, os.clock(s'.kernel.t), timely) {
      assert s'.services[p] == s.services[p];
    }
  }

  // ---------------------------------------------------------------- exits

  /** Handling an exit keeps the invariant once the exited pid is out of the table; and whatever runs afterwards
      runs a definition that ran before. */
  lemma ExitKeepsInv(os: Os, s: SupState, status: WaitStatus, other: set<Pid>, timely: bool)
    requires os.Valid() && os.MonotoneClock() && IsExit(status) && status.pid in s.services
    requires SupInv(os, s.(kernel := s.kernel.(children := s.kernel.children + {status.pid})), other, timely)
    ensures SupInv(os, HandleExit(os, s, status).0, other, timely)
    ensures DefsFrom(HandleExit(os, s, status).0.services, s.services)
  {
    var e := s.services[status.pid];
    var before := s.(kernel := s.kernel.(children := s.kernel.children + {status.pid}));
    var gone := SupState(s.services - {status.pid}, s.notify.Forget(e.def.name), s.kernel);
    assert s.notify.Forget(e.def.name) == s.notify.ForgetAll({e.def.name});
    DropKeepsInv(os, before, gone, {status.pid}, {e.def.name}, other, timely);
    var later := gone.(kernel := s.kernel.Advance(1));
    DropKeepsInv(os, before, later, {status.pid}, {e.def.name}, other, timely);
    var now := os.clock(s.kernel.t);
    var times := Recent(e.restartTimes, now) + [now];
    if !e.def.critical && ShouldRestart(e.def.restart, status) && |times| <= MAX_RESTARTS_IN_WINDOW {
      RestartKeepsBudget(e.restartTimes, e.chain, now);
      assert UpTo(e.chain + [now], os.clock(later.kernel.t)) by {
        assert now <= os.clock(later.kernel.t);
      }
      OnlyOneNamed(os, before, later, status.pid);
      SpawnKeepsInv(os, later, e.def, times, e.chain + [now], other, timely);
      RestartDefs(os, s, later, status.pid, times, e.chain + [now]);
    }
  }

  /** Every definition in `a` is one of those in `b`. */
  ghost predicate DefsFrom(a: Services, b: Services) {
    forall p :: p in a ==> Holds(b, a[p].def)
  }

  lemma EmptyByMembers(a: set<Pid>, b: set<Pid>)
    requires a <= b && forall x :: x in b ==> x !in a
    ensures a == {}
  {
    if a != {} {
      var x := Member(a);
    }
  }

  lemma OnlyOneNamed(os: Os, s: SupState, later: SupState, pid: Pid)
    requires UniqueTracked(s.services, Exempt(os)) && pid in s.services && later.services == s.services - {pid}
    ensures s.services[pid].def.name in Exempt(os) || Named(later.services, s.services[pid].def.name) == {}
  {
    var name := s.services[pid].def.name;
    if name !in Exempt(os) {
      forall q | q in later.services ensures q !in Named(later.services, name) {
        assert q in s.services && q != pid && later.services[q] == s.services[q];
      }
      assert Named(later.services, name) <= later.services.Keys;
      EmptyByMembers(Named(later.services, name), later.services.Keys);
    }
  }

  lemma RestartDefs(os: Os, s: SupState, later: SupState, pid: Pid, times: seq<Instant>, chain: seq<Instant>)
    requires pid in s.services && !s.services[pid].def.critical && later.services == s.services - {pid}
    ensures DefsFrom(SpawnWithHistory(os, later, s.services[pid].def, times, chain).services, s.services)
  {
    var d := s.services[pid].def;
    var s' := SpawnWithHistory(os, later, d, times, chain);
    forall p | p in s'.services ensures Holds(s.services, s'.services[p].def) {
      assert s'.services[p].def == d || (p in s.services && s'.services[p] == s.services[p]);
    }
  }

  // ---------------------------------------------------------------- reloads

  lemma ReloadOneKeepsInv(os: Os, s: SupState, d: ServiceDef, other: set<Pid>, timely: bool)
    requires os.Valid() && os.MonotoneClock() && SupInv(os, s, other, timely)
    ensures SupInv(os, ReloadOne(os, s, d).sup, other, timely)
  {
    var found := Named(s.services, d.name);
    EmptyHistoryOk(os.clock(s.kernel.t));
    if found == {} {
      SpawnKeepsInv(os, s, d, [], [], other, timely);
    } else {
      var pid := os.pick(s.kernel.t, found);
      assert pid in found;
      if !DefsEqual(s.services[pid].def, d) {
        var stopped := s.(services := s.services - {pid}, kernel := StopKernel(os, s.kernel, {pid}));
        assert s.notify.ForgetAll({}) == s.notify;
        DropKeepsInv(os, s, stopped, {pid}, {}, other, timely);
        OnlyOneNamed(os, s, stopped, pid);
        EmptyHistoryOk(os.clock(stopped.kernel.t));
        SpawnKeepsInv(os, stopped, d, [], [], other, timely);
      }
    }
  }

  lemma {:induction false} ReloadLoopKeepsInv(
      os: Os, s: SupState, defs: seq<ServiceDef>, n: nat, other: set<Pid>, timely: bool)
    requires os.Valid() && os.MonotoneClock() && SupInv(os, s, other, timely) && n <= |defs|
    ensures SupInv(os, ReloadLoop(os, s, defs, n).sup, other, timely)
  {
    if n == 0 {
    } else {
      ReloadLoopKeepsInv(os, s, defs, n - 1, other, timely);
      ReloadOneKeepsInv(os, ReloadLoop(os, s, defs, n - 1).sup, defs[n - 1], other, timely);
    }
  }

  lemma ReloadKeepsInv(os: Os, s: SupState, defs: seq<ServiceDef>, other: set<Pid>, timely: bool)
    requires os.Valid() && os.MonotoneClock() && SupInv(os, s, other, timely)
    ensures SupInv(os, ReloadServices(os, s, defs).sup, other, timely)
  {
    var stale := Stale(s, defs);
    DropKeepsInv(os, s, StopAll(os, s, stale), stale, NamesOf(s.services, stale), other, timely);
    ReloadLoopKeepsInv(os, StopAll(os, s, stale), defs, |defs|, other, timely);
  }

  // ---------------------------------------------------------------- datagrams

  /** The datagram comes from the instance now tracked under its name. */
  ghost predicate TimelyDatagram(s: Services, d: Datagram) {
    d.watchdog ==> d.pid in s && s[d.pid].def.name == d.name
  }

  lemma ReceiveKeepsInv(os: Os, s: SupState, d: Datagram, other: set<Pid>, timely: bool)
    requires os.MonotoneClock() && SupInvBut(os, s, other, timely)
    requires timely ==> TimelyDatagram(s.services, d)
    ensures SupInvBut(os, Receive(os, s, d), other, timely)
    ensures SameDefs(Receive(os, s, d).services, s.services)
    ensures Receive(os, s, d).kernel.children == s.kernel.children && s.kernel.t <= Receive(os, s, d).kernel.t
  {
    var s' := Receive(os, s, d);
    var now := os.clock(s.kernel.t);
    assert now <= os.clock(s'.kernel.t);
    forall p | p in s'.services ensures EntryOk(os, s'.services[p], s'.notify, os.clock(s'.kernel.t), timely) {
      ReceiveEntry(os, s, d, p, timely);
    }
  }

  lemma ReceiveEntry(os: Os, s: SupState, d: Datagram, p: Pid, timely: bool)
    requires os.MonotoneClock() && EntriesOk(os, s, timely) && UniqueTracked(s.services, Exempt(os)) && p in s.services
    requires timely ==> TimelyDatagram(s.services, d)
    ensures var s' := Receive(os, s, d);
            p in s'.services && EntryOk(os, s'.services[p], s'.notify, os.clock(s'.kernel.t), timely)
  {
    var s' := Receive(os, s, d);
    assert os.clock(s.kernel.t) <= os.clock(s'.kernel.t);
    assert s'.services[p].(heard := s.services[p].heard) == s.services[p];
  }

  /** The part of the invariant that does not mention the kernel's children. */
  ghost predicate SupInvBut(os: Os, s: SupState, other: set<Pid>, timely: bool) {
    other !! s.services.Keys && UniqueTracked(s.services, Exempt(os)) && EntriesOk(os, s, timely)
  }

  ghost predicate SameDefs(a: Services, b: Services) {
    a.Keys == b.Keys && forall p :: p in a ==> a[p].def == b[p].def
  }

  lemma SameDefsFrom(a: Services, b: Services)
    requires SameDefs(a, b)
    ensures DefsFrom(a, b)
  {
    forall p | p in a ensures Holds(b, a[p].def) {
      assert p in b && b[p].def == a[p].def;
    }
  }

  lemma DefsFromTransitive(a: Services, b: Services, c: Services)
    requires DefsFrom(a, b) && DefsFrom(b, c)
    ensures DefsFrom(a, c)
  {
    forall p | p in a ensures Holds(c, a[p].def) {
      assert Holds(b, a[p].def);
      var q :| q in b && b[q].def == a[p].def;
      assert Holds(c, b[q].def);
    }
  }

  lemma {:induction false} ReceiveAllKeepsInv(
      os: Os, s: SupState, ds: seq<Datagram>, n: nat, other: set<Pid>, timely: bool)
    requires os.MonotoneClock() && SupInvBut(os, s, other, timely) && n <= |ds|
    requires timely ==> forall d :: d in ds ==> TimelyDatagram(s.services, d)
    ensures var s' := ReceiveAll(os, s, ds, n);
            && SupInvBut(os, s', other, timely) && SameDefs(s'.services, s.services)
            && s'.kernel.children == s.kernel.children && s.kernel.t <= s'.kernel.t
  {
    if n == 0 {
    } else {
      ReceiveAllKeepsInv(os, s, ds, n - 1, other, timely);
      var mid := ReceiveAll(os, s, ds, n - 1);
      assert ds[n - 1] in ds;
      ReceiveKeepsInv(os, mid, ds[n - 1], other, timely);
    }
  }

  // ---------------------------------------------------------------- boot

  /** After `n` services the boot loop tracks only folded definitions among those, and rescue shells. */
  ghost predicate BootSoFar(os: Os, s: SupState, order: seq<ServiceDef>, n: nat)
    requires n <= |order|
  {
    && SupInv(os, s, {}, true)
    && forall p :: p in s.services ==>
         s.services[p].def in order[..n] || (s.services[p].def == FallbackShell() && SHELL in Exempt(os))
  }

  lemma BootOneKeepsInv(os: Os, b: Boot, order: seq<ServiceDef>, configured: set<string>, n: nat)
    requires os.Valid() && os.MonotoneClock() && 0 < n <= |order| && BootSoFar(os, b.sup, order, n - 1)
    requires NewAt(order, n - 1)
    ensures BootSoFar(os, BootOne(os, b, order[n - 1], configured).sup, order, n)
  {
    var d := order[n - 1];
    assert order[..n] == order[..n - 1] + [d];
    if !HardMissing(d, configured, b.spawned) {
      var waited := b.sup.(kernel := b.sup.kernel.Advance(|d.afterReady|));
      assert b.sup.services - {} == b.sup.services && b.sup.notify.ForgetAll({}) == b.sup.notify;
      DropKeepsInv(os, b.sup, waited, {}, {}, {}, true);
      if d.name !in Exempt(os) {
        forall p | p in waited.services ensures p !in Named(waited.services, d.name) {
          assert waited.services[p].def in order[..n - 1] ==> waited.services[p].def.name in Names(order[..n - 1]);
        }
        EmptyByMembers(Named(waited.services, d.name), waited.services.Keys);
      }
      EmptyHistoryOk(os.clock(waited.kernel.t));
      SpawnKeepsInv(os, waited, d, [], [], {}, true);
      SpawnEffect(os, waited, d, [], []);
    }
  }

  lemma EmptyInv(os: Os, s: SupState)
    requires s.services == map[]
    ensures SupInv(os, s, {}, true)
  {
  }

  lemma {:induction false} BootLoopKeepsInv(
      os: Os, s: SupState, order: seq<ServiceDef>, configured: set<string>, n: nat)
    requires os.Valid() && os.MonotoneClock() && n <= |order| && EachNew(order)
    requires s.services == map[]
    ensures BootSoFar(os, BootLoop(os, s, order, configured, n).sup, order, n)
  {
    if n == 0 {
      EmptyInv(os, s);
    } else {
      BootLoopKeepsInv(os, s, order, configured, n - 1);
      assert NewAt(order, n - 1);
      BootOneKeepsInv(os, BootLoop(os, s, order, configured, n - 1), order, configured, n);
    }
  }

  /** Booting establishes the invariant; every tracked service carries a folded definition, rescue shells aside. */
  lemma BootEstablishesInv(os: Os, s: SupState, defs: seq<ServiceDef>)
    requires os.Valid() && os.MonotoneClock() && UniqueNames(defs) && s.services == map[]
    ensures var b := SpawnAll(os, s, defs).sup;
            && SupInv(os, b, {}, true)
            && forall p :: p in b.services ==>
                 || b.services[p].def in EffectiveAfter(defs)
                 || (b.services[p].def == FallbackShell() && !os.NoFallback())
  {
    OrderFacts(defs);
    var order := BootOrder(defs);
    BootLoopKeepsInv(os, s, order, Names(defs), |order|);
    assert order[..|order|] == order;
  }
}
