/** What `spawn_all` starts, for every dependency graph and every pattern of failing spawns. */
module BootTheorems {
  import opened Config
  import opened Graphs
  import opened Folding
  import opened Ordering
  import opened Machine
  import opened Supervision

  /** Hard dependencies between configured services. */
  function RequiresGraph(defs: seq<ServiceDef>): Graph {
    set d, r | d in defs && r in d.requires_ && r in Names(defs) :: (d.name, r)
  }

  /** The dependencies that `spawn_all` enforces for `d`. */
  function Needs(d: ServiceDef, configured: set<string>): set<string> {
    set r | r in d.requires_ && r in configured
  }

  lemma Member(pids: set<Pid>) returns (p: Pid)
    requires pids != {}
    ensures p in pids
  {
    p :| p in pids;
  }

  lemma TracksIffNamed(services: Services, name: string)
    ensures Tracks(services, name) <==> Named(services, name) != {}
  {
    if Tracks(services, name) {
      var p :| p in services && services[p].def.name == name;
      assert p in Named(services, name);
    }
    if Named(services, name) != {} {
      var p := Member(Named(services, name));
    }
  }

  /** What one spawn does to the table: nothing, or one new entry under a new pid. */
  lemma SpawnEffect(os: Os, s: SupState, d: ServiceDef, history: seq<Instant>, chain: seq<Instant>)
    requires os.Valid() && s.services.Keys <= s.kernel.children
    ensures var s' := SpawnWithHistory(os, s, d, history, chain);
            && s'.services.Keys <= s'.kernel.children
            && s.kernel.children <= s'.kernel.children
            && s.kernel.t < s'.kernel.t
            && (forall p :: p in s.services ==> p in s'.services && s'.services[p] == s.services[p])
            && (s'.services == s.services || exists p :: NewEntry(os, s, s', p, d, history, chain))
  {
    assert Fresh(os.spawn(s.kernel.t, d, s.kernel.children), s.kernel.children);
    var s' := SpawnWithHistory(os, s, d, history, chain);
    match os.spawn(s.kernel.t, d, s.kernel.children)
    case Started(pid) => assert NewEntry(os, s, s', pid, d, history, chain);
    case Refused(shell) =>
      if d.critical && shell.Some? {
        assert NewEntry(os, s, s', shell.value, d, history, chain);
      }
  }

  /** `s'` has the entry `p` on top of those of `s`: the definition asked for, or the rescue shell. */
  ghost predicate NewEntry(os: Os, s: SupState, s': SupState, p: Pid, d: ServiceDef, history: seq<Instant>,
                           chain: seq<Instant>)
  {
    && p !in s.kernel.children
    && p in s'.services
    && s'.services.Keys == s.services.Keys + {p}
    && (|| s'.services[p] == Supervised(d, history, os.clock(s.kernel.t), chain, None, s.kernel.t)
        || (&& s'.services[p] == Supervised(FallbackShell(), [], os.clock(s.kernel.t), [], None, s.kernel.t)
            && !os.NoFallback()))
  }

  // ---------------------------------------------------------------- any graph

  /** Hard dependencies hold throughout the boot loop. */
  ghost predicate Closed(b: Boot, configured: set<string>) {
    && b.sup.services.Keys <= b.sup.kernel.children
    && (forall x :: x in b.spawned ==> Tracks(b.sup.services, x))
    && (forall p :: p in b.sup.services ==> Needs(b.sup.services[p].def, configured) <= b.spawned)
    && (forall x :: x in b.spawned ==> x in b.attempted)
  }

  lemma BootOneClosed(os: Os, b: Boot, d: ServiceDef, configured: set<string>)
    requires os.Valid() && Closed(b, configured)
    ensures Closed(BootOne(os, b, d, configured), configured)
  {
    if !HardMissing(d, configured, b.spawned) {
      var waited := b.sup.(kernel := b.sup.kernel.Advance(|d.afterReady|));
      var b' := BootOne(os, b, d, configured);
      SpawnEffect(os, waited, d, [], []);
      TracksIffNamed(b'.sup.services, d.name);
      forall x | x in b'.spawned ensures Tracks(b'.sup.services, x) {
        if x in b.spawned {
          var p :| p in b.sup.services && b.sup.services[p].def.name == x;
          assert p in b'.sup.services && b'.sup.services[p].def.name == x;
        }
      }
      assert Needs(d, configured) <= b.spawned;
      forall p | p in b'.sup.services ensures Needs(b'.sup.services[p].def, configured) <= b'.spawned {
        if p !in b.sup.services {
          assert b'.sup.services[p].def == d || b'.sup.services[p].def == FallbackShell();
        }
      }
    }
  }

  lemma {:induction false} BootLoopClosed(os: Os, s: SupState, order: seq<ServiceDef>, configured: set<string>, n: nat)
    requires os.Valid() && s.services == map[] && n <= |order|
    ensures Closed(BootLoop(os, s, order, configured, n), configured)
  {
    if n == 0 {
    } else {
      BootLoopClosed(os, s, order, configured, n - 1);
      BootOneClosed(os, BootLoop(os, s, order, configured, n - 1), order[n - 1], configured);
    }
  }

  /** Attempt `k` is for one of the first `n` services, after all its hard dependencies. */
  ghost predicate NeedsFirst(a: seq<string>, k: nat, order: seq<ServiceDef>, configured: set<string>, n: nat)
    requires k < |a| && n <= |order|
  {
    exists i :: 0 <= i < n && order[i].name == a[k] && Needs(order[i], configured) <= set x | x in a[..k]
  }

  ghost predicate AttemptsInOrder(a: seq<string>, order: seq<ServiceDef>, configured: set<string>, n: nat)
    requires n <= |order|
  {
    && (forall k :: 0 <= k < |a| ==> NeedsFirst(a, k, order, configured, n))
    && (forall j, k :: 0 <= j < k < |a| ==> a[j] != a[k])
  }

  lemma AttemptsStep(os: Os, b: Boot, order: seq<ServiceDef>, configured: set<string>, n: nat)
    requires 0 < n <= |order| && NewAt(order, n - 1)
    requires Closed(b, configured) && AttemptsInOrder(b.attempted, order, configured, n - 1)
    ensures AttemptsInOrder(BootOne(os, b, order[n - 1], configured).attempted, order, configured, n)
  {
    var d := order[n - 1];
    var a, a' := b.attempted, BootOne(os, b, d, configured).attempted;
    forall k | 0 <= k < |a'| ensures NeedsFirst(a', k, order, configured, n) {
      if k < |a| {
        assert NeedsFirst(a, k, order, configured, n - 1);
        assert a'[..k] == a[..k] && a'[k] == a[k];
      } else {
        assert a'[..k] == a && a'[k] == d.name;
        assert Needs(d, configured) <= set x | x in a;
      }
    }
    forall j, k | 0 <= j < k < |a'| ensures a'[j] != a'[k] {
      assert NeedsFirst(a, j, order, configured, n - 1);
      var i :| 0 <= i < n - 1 && order[i].name == a[j];
      assert order[i] in order[..n - 1];
    }
  }

  lemma {:induction false} AttemptsFollowNeeds(
      os: Os, s: SupState, order: seq<ServiceDef>, configured: set<string>, n: nat)
    requires os.Valid() && s.services == map[] && n <= |order| && EachNew(order)
    ensures AttemptsInOrder(BootLoop(os, s, order, configured, n).attempted, order, configured, n)
  {
    if n == 0 {
    } else {
      BootLoopClosed(os, s, order, configured, n - 1);
      AttemptsFollowNeeds(os, s, order, configured, n - 1);
      assert NewAt(order, n - 1);
      AttemptsStep(os, BootLoop(os, s, order, configured, n - 1), order, configured, n);
    }
  }

  lemma OrderFacts(defs: seq<ServiceDef>)
    requires UniqueNames(defs)
    ensures UniqueNames(BootOrder(defs)) && EachNew(BootOrder(defs))
    ensures Names(BootOrder(defs)) == Names(defs)
    ensures forall e :: e in BootOrder(defs) <==> e in EffectiveAfter(defs)
  {
    FoldingKeepsNames(defs);
    OrderTheorem(EffectiveAfter(defs));
    SameElements(BootOrder(defs), EffectiveAfter(defs));
    UniqueIsEachNew(BootOrder(defs));
  }

  /** Folding keeps what is required, so the folded definition of a name needs what the configured one does. */
  lemma FoldedNeeds(defs: seq<ServiceDef>, e: ServiceDef, r: string)
    requires UniqueNames(defs) && e in EffectiveAfter(defs)
    ensures r in Needs(e, Names(defs)) <==> (e.name, r) in RequiresGraph(defs)
  {
    var i :| 0 <= i < |defs| && EffectiveAfter(defs)[i] == e;
    assert defs[i] in defs && defs[i].name == e.name && defs[i].requires_ == e.requires_;
    if (e.name, r) in RequiresGraph(defs) {
      var d :| d in defs && r in d.requires_ && r in Names(defs) && d.name == e.name;
      SameNameSameDef(defs, d, defs[i]);
    }
  }

  /** On every graph: a tracked service has all its configured requirements tracked, and no service from which
      `requires` leads into a cycle, in particular none lying on one, is ever spawned. */
  lemma RequirementsHold(os: Os, s: SupState, defs: seq<ServiceDef>)
    requires os.Valid() && s.services == map[] && UniqueNames(defs)
    ensures var b := SpawnAll(os, s, defs);
            && (forall p, r :: p in b.sup.services && r in Needs(b.sup.services[p].def, Names(defs)) ==>
                  Tracks(b.sup.services, r))
            && (forall n :: n in b.attempted ==>
                  !ReachesCycle(RequiresGraph(defs), n) && !OnCycle(RequiresGraph(defs), n))
  {
    var order, g := BootOrder(defs), RequiresGraph(defs);
    OrderFacts(defs);
    BootLoopClosed(os, s, order, Names(defs), |order|);
    AttemptsDescend(os, s, defs);
    var a := SpawnAll(os, s, defs).attempted;
    forall n | n in a ensures !ReachesCycle(g, n) && !OnCycle(g, n) {
      var k :| 0 <= k < |a| && a[k] == n;
      NoCycleFromOrder(g, a, k);
    }
  }

  lemma AttemptsDescend(os: Os, s: SupState, defs: seq<ServiceDef>)
    requires os.Valid() && s.services == map[] && UniqueNames(defs)
    ensures var a := SpawnAll(os, s, defs).attempted;
            && SuccessorsFirst(RequiresGraph(defs), a)
            && forall i, j :: 0 <= i < j < |a| ==> a[i] != a[j]
  {
    var order, g := BootOrder(defs), RequiresGraph(defs);
    var a := SpawnAll(os, s, defs).attempted;
    OrderFacts(defs);
    AttemptsFollowNeeds(os, s, order, Names(defs), |order|);
    forall k, m | 0 <= k < |a| && (a[k], m) in g ensures m in a[..k] {
      assert NeedsFirst(a, k, order, Names(defs), |order|);
      var i :| 0 <= i < |order| && order[i].name == a[k] && Needs(order[i], Names(defs)) <= set x | x in a[..k];
      FoldedNeeds(defs, order[i], m);
    }
  }

  // ---------------------------------------------------------------- exactly what starts

  /** The services whose spawn was refused, but for one called `shell` that a rescue shell stands in for. */
  function Failed(b: Boot): set<string> {
    b.refused - b.spawned * {SHELL}
  }

  /** The loop so far, decided service by service: running means not failed and every configured requirement
      running and earlier in the order. */
  ghost predicate Decided(os: Os, b: Boot, order: seq<ServiceDef>, configured: set<string>, n: nat)
    requires n <= |order|
  {
    && b.spawned <= Names(order[..n])
    && b.refused <= Names(order[..n])
    && b.refused * b.spawned <= Exempt(os)
    && (forall x :: x in b.refused ==> Answered(os, order, x, true))
    && (forall x :: x in b.spawned - b.refused ==> Answered(os, order, x, false))
    && (forall p :: p in b.sup.services ==> Recorded(os, b, order, b.sup.services[p].def))
    && (forall j :: 0 <= j < n ==> (order[j].name in b.spawned <==> Served(b, order, configured, j)))
  }

  /** The system can refuse, or start, the definition. */
  ghost predicate Answers(os: Os, d: ServiceDef, refused: bool) {
    exists t, kids :: os.spawn(t, d, kids).Refused? == refused
  }

  ghost predicate Answered(os: Os, order: seq<ServiceDef>, name: string, refused: bool) {
    exists d :: d in order && d.name == name && Answers(os, d, refused)
  }

  /** `def` is a definition of the order, recorded as running, or a rescue shell's. */
  ghost predicate Recorded(os: Os, b: Boot, order: seq<ServiceDef>, def: ServiceDef) {
    (def in order && def.name in b.spawned) || (def == FallbackShell() && !os.NoFallback())
  }

  ghost predicate Served(b: Boot, order: seq<ServiceDef>, configured: set<string>, j: nat)
    requires j < |order|
  {
    && order[j].name !in Failed(b)
    && forall r :: r in Needs(order[j], configured) ==> r in b.spawned && r in Names(order[..j])
  }

  /** What one turn of the loop can do to its records. */
  ghost predicate BootStep(os: Os, b: Boot, b': Boot, d: ServiceDef, configured: set<string>) {
    if HardMissing(d, configured, b.spawned) then b' == b
    else
      && (forall p :: p in b'.sup.services ==>
            || (p in b.sup.services && b'.sup.services[p] == b.sup.services[p])
            || (b'.sup.services[p].def == d && d.name in b'.spawned)
            || (b'.sup.services[p].def == FallbackShell() && !os.NoFallback()))
      && (|| (b'.spawned == b.spawned + {d.name} && b'.refused == b.refused && Answers(os, d, false))
          || (b'.spawned == b.spawned && b'.refused == b.refused + {d.name} && Answers(os, d, true))
          || (&& b'.spawned == b.spawned + {d.name} && b'.refused == b.refused + {d.name} && Answers(os, d, true)
              && d.name == SHELL && d.name in Exempt(os)))
  }

  lemma BootOneSteps(os: Os, b: Boot, d: ServiceDef, configured: set<string>)
    requires os.Valid() && b.sup.services.Keys <= b.sup.kernel.children
    requires d.name in Exempt(os) || !Tracks(b.sup.services, d.name)
    ensures BootStep(os, b, BootOne(os, b, d, configured), d, configured)
  {
    if !HardMissing(d, configured, b.spawned) {
      var b' := BootOne(os, b, d, configured);
      var waited := b.sup.(kernel := b.sup.kernel.Advance(|d.afterReady|));
      var answer := os.spawn(waited.kernel.t, d, waited.kernel.children);
      assert Answers(os, d, answer.Refused?);
      assert os.NoFallback() ==> NoShell(d, answer);
      assert Fresh(answer, waited.kernel.children);
      TracksIffNamed(b'.sup.services, d.name);
      if answer.Started? {
        assert answer.pid in b'.sup.services && b'.sup.services[answer.pid].def.name == d.name;
      }
    }
  }

  lemma NotYetTracked(os: Os, b: Boot, order: seq<ServiceDef>, configured: set<string>, n: nat)
    requires 0 < n <= |order| && NewAt(order, n - 1) && Decided(os, b, order, configured, n - 1)
    ensures order[n - 1].name in Exempt(os) || !Tracks(b.sup.services, order[n - 1].name)
  {
    forall p | p in b.sup.services && b.sup.services[p].def.name == order[n - 1].name
      ensures order[n - 1].name in Exempt(os)
    {
      assert Recorded(os, b, order, b.sup.services[p].def);
    }
  }

  lemma BootOneDecides(os: Os, b: Boot, order: seq<ServiceDef>, configured: set<string>, n: nat)
    requires os.Valid() && 0 < n <= |order| && NewAt(order, n - 1)
    requires Closed(b, configured) && Decided(os, b, order, configured, n - 1)
    ensures Decided(os, BootOne(os, b, order[n - 1], configured), order, configured, n)
  {
    assert order[..n] == order[..n - 1] + [order[n - 1]];
    assert Names(order[..n]) == Names(order[..n - 1]) + {order[n - 1].name};
    NotYetTracked(os, b, order, configured, n);
    BootOneSteps(os, b, order[n - 1], configured);
    StepDecides(os, b, BootOne(os, b, order[n - 1], configured), order, configured, n);
  }

  lemma StepRecords(os: Os, b: Boot, b': Boot, order: seq<ServiceDef>, configured: set<string>, n: nat)
    requires 0 < n <= |order| && Decided(os, b, order, configured, n - 1)
    requires BootStep(os, b, b', order[n - 1], configured)
    ensures forall p :: p in b'.sup.services ==> Recorded(os, b', order, b'.sup.services[p].def)
    ensures forall x :: x in b'.refused ==> Answered(os, order, x, true)
    ensures forall x :: x in b'.spawned - b'.refused ==> Answered(os, order, x, false)
  {
    var d := order[n - 1];
    forall p | p in b'.sup.services ensures Recorded(os, b', order, b'.sup.services[p].def) {
      assert p in b.sup.services ==> Recorded(os, b, order, b.sup.services[p].def);
    }
    assert forall refused :: Answers(os, d, refused) ==> Answered(os, order, d.name, refused);
  }

  /** What was decided before stays decided. */
  lemma StepKeepsServed(os: Os, b: Boot, b': Boot, order: seq<ServiceDef>, configured: set<string>, n: nat)
    requires 0 < n <= |order| && Decided(os, b, order, configured, n - 1)
    requires BootStep(os, b, b', order[n - 1], configured) && NewAt(order, n - 1)
    ensures forall j :: 0 <= j < n - 1 ==> (order[j].name in b'.spawned <==> Served(b', order, configured, j))
  {
    forall j | 0 <= j < n - 1 ensures order[j].name in b'.spawned <==> Served(b', order, configured, j) {
      assert order[j] in order[..n - 1];
      assert forall e :: e in order[..j] ==> e in order[..n - 1];
      assert order[j].name in b.spawned <==> Served(b, order, configured, j);
    }
  }

  lemma StepDecides(os: Os, b: Boot, b': Boot, order: seq<ServiceDef>, configured: set<string>, n: nat)
    requires 0 < n <= |order| && Decided(os, b, order, configured, n - 1)
    requires BootStep(os, b, b', order[n - 1], configured) && NewAt(order, n - 1)
    requires Names(order[..n]) == Names(order[..n - 1]) + {order[n - 1].name}
    ensures Decided(os, b', order, configured, n)
  {
    var d := order[n - 1];
    StepKeepsServed(os, b, b', order, configured, n);
    StepRecords(os, b, b', order, configured, n);
    if HardMissing(d, configured, b.spawned) {
      var r :| r in d.requires_ && r in configured && r !in b.spawned;
      assert r in Needs(d, configured);
      assert !Served(b', order, configured, n - 1);
    } else {
      assert Needs(d, configured) <= b.spawned;
    }
  }

  lemma NothingDecided(os: Os, s: SupState, order: seq<ServiceDef>, configured: set<string>)
    requires s.services == map[]
    ensures Decided(os, Boot(s, {}, [], {}), order, configured, 0)
  {
  }

  lemma BootLoopDecides(os: Os, s: SupState, order: seq<ServiceDef>, configured: set<string>, n: nat)
    requires os.Valid() && s.services == map[] && EachNew(order) && n <= |order|
    ensures Decided(os, BootLoop(os, s, order, configured, n), order, configured, n)
  {
    var keeps := (b: Boot, k: nat) => k <= |order| && Closed(b, configured) && Decided(os, b, order, configured, k);
    NothingDecided(os, s, order, configured);
    forall b: Boot, k: nat | keeps(b, k) && k < n
      ensures keeps(BootOne(os, b, order[k], configured), k + 1)
    {
      assert NewAt(order, k);
      BootOneClosed(os, b, order[k], configured);
      BootOneDecides(os, b, order, configured, k + 1);
    }
    BootLoopKeeps(os, s, order, configured, n, keeps);
  }

  /** What holds at the start and survives every turn holds of the boot loop. */
  lemma {:induction false} BootLoopKeeps(
      os: Os, s: SupState, order: seq<ServiceDef>, configured: set<string>, n: nat, keeps: (Boot, nat) -> bool)
    requires n <= |order| && keeps(Boot(s, {}, [], {}), 0)
    requires forall b: Boot, k: nat :: keeps(b, k) && k < n ==> keeps(BootOne(os, b, order[k], configured), k + 1)
    ensures keeps(BootLoop(os, s, order, configured, n), n)
  {
    if n == 0 {
    } else {
      BootLoopKeeps(os, s, order, configured, n - 1, keeps);
    }
  }

  /** Services the order places before something they require. */
  function TooEarly(order: seq<ServiceDef>, configured: set<string>): set<string> {
    set j | 0 <= j < |order| && !(Needs(order[j], configured) <= Names(order[..j])) :: order[j].name
  }

  lemma {:induction false} RunningReachesNothingBlocked(
      os: Os, b: Boot, order: seq<ServiceDef>, g: Graph, configured: set<string>, p: seq<string>)
    requires Decided(os, b, order, configured, |order|)
    requires forall j, r :: 0 <= j < |order| ==> (r in Needs(order[j], configured) <==> (order[j].name, r) in g)
    requires UniqueNames(order) && Walk(g, p) && p[0] in b.spawned
    ensures p[|p| - 1] in b.spawned && p[|p| - 1] !in Failed(b) + TooEarly(order, configured)
    decreases |p|
  {
    var j := IndexOf(order, p[0], b.spawned);
    assert Served(b, order, configured, j);
    if |p| > 1 {
      assert (p[0], p[1]) in g;
      var q := p[1..];
      assert forall i :: 0 <= i < |q| - 1 ==> (q[i], q[i + 1]) == (p[i + 1], p[i + 2]);
      RunningReachesNothingBlocked(os, b, order, g, configured, q);
    }
  }

  lemma IndexOf(order: seq<ServiceDef>, name: string, among: set<string>) returns (j: nat)
    requires name in among && among <= Names(order[..|order|])
    ensures j < |order| && order[j].name == name
  {
    assert order[..|order|] == order;
    var d :| d in order && d.name == name;
    j :| 0 <= j < |order| && order[j] == d;
  }

  lemma {:induction false} NotRunningReachesBlocked(
      os: Os, b: Boot, order: seq<ServiceDef>, g: Graph, configured: set<string>, blocked: set<string>, j: nat)
    requires Decided(os, b, order, configured, |order|)
    requires forall j, r :: 0 <= j < |order| ==> (r in Needs(order[j], configured) <==> (order[j].name, r) in g)
    requires blocked == Failed(b) + TooEarly(order, configured)
    requires j < |order| && order[j].name !in b.spawned
    ensures Reaches(g, order[j].name, blocked)
  {
    assert !Served(b, order, configured, j);
    if order[j].name in Failed(b) {
      ReachesSelf(g, order[j].name, blocked);
    } else {
      var r :| r in Needs(order[j], configured) && !(r in b.spawned && r in Names(order[..j]));
      if r !in Names(order[..j]) {
        assert order[j].name in TooEarly(order, configured);
        ReachesSelf(g, order[j].name, blocked);
      } else {
        var e :| e in order[..j] && e.name == r;
        var i :| 0 <= i < j && order[i] == e;
        NotRunningReachesBlocked(os, b, order, g, configured, blocked, i);
        ReachesStep(g, order[j].name, r, blocked);
      }
    }
  }

  lemma DecidedExact(os: Os, b: Boot, order: seq<ServiceDef>, g: Graph, configured: set<string>, name: string)
    requires Decided(os, b, order, configured, |order|) && UniqueNames(order) && name in Names(order)
    requires forall j, r :: 0 <= j < |order| ==> (r in Needs(order[j], configured) <==> (order[j].name, r) in g)
    ensures name in b.spawned <==> !Reaches(g, name, Failed(b) + TooEarly(order, configured))
  {
    var blocked := Failed(b) + TooEarly(order, configured);
    if name in b.spawned {
      forall p | WalkFrom(g, name, p) ensures p[|p| - 1] !in blocked {
        RunningReachesNothingBlocked(os, b, order, g, configured, p);
      }
    } else {
      var e :| e in order && e.name == name;
      var j :| 0 <= j < |order| && order[j] == e;
      NotRunningReachesBlocked(os, b, order, g, configured, blocked, j);
    }
  }

  // ---------------------------------------------------------------- what is out of order

  /** Definition `i` requires a configured service that ordering edges lead from into a cycle and that is not
      listed earlier. */
  ghost predicate WaitsOnCycle(defs: seq<ServiceDef>, i: nat)
    requires i < |defs|
  {
    exists r :: r in Needs(defs[i], Names(defs)) && CycleAhead(defs, r) && r !in Names(defs[..i])
  }

  ghost predicate CycleAhead(defs: seq<ServiceDef>, name: string) {
    ReachesCycle(AfterGraph(EffectiveAfter(defs)), name)
  }

  ghost function OutOfOrder(defs: seq<ServiceDef>): set<string> {
    set i | 0 <= i < |defs| && WaitsOnCycle(defs, i) :: defs[i].name
  }

  /** Requirements are ordering edges. */
  lemma NeedsAreEdges(defs: seq<ServiceDef>, i: nat, r: string)
    requires UniqueNames(defs) && i < |defs| && r in Needs(defs[i], Names(defs))
    ensures (defs[i].name, r) in AfterGraph(EffectiveAfter(defs))
  {
    FoldingKeepsNames(defs);
    FoldingExact(defs, i);
    assert MustPrecede(defs, r, defs[i]);
    assert EffectiveAfter(defs)[i] in EffectiveAfter(defs);
  }

  /** What a placed service comes after is placed before it, and no cycle is ahead of it. */
  lemma PlacedBefore(g: Graph, o: Order, j: nat, r: string)
    requires SuccessorsFirst(g, NameSeq(o.placed)) && j < |o.placed| && (o.placed[j].name, r) in g
    requires !ReachesCycle(g, o.placed[j].name)
    ensures r in Names(o.All()[..j]) && !ReachesCycle(g, r)
  {
    assert NameSeq(o.placed)[j] == o.placed[j].name;
    var k :| 0 <= k < j && NameSeq(o.placed)[k] == r;
    assert o.All()[..j][k].name == r;
    if ReachesCycle(g, r) {
      ReachesCycleStep(g, o.placed[j].name, r);
    }
  }

  /** A service left to the cycle branch stands behind everything placed, and behind the others left over that are
      listed before it. */
  lemma StuckBefore(folded: seq<ServiceDef>, o: Order, keep: set<string>, i: nat, a: nat, h: nat)
    requires UniqueNames(folded) && UniqueNames(o.stuck) && o.stuck == Keep(folded, keep)
    requires i < |folded| && h < |folded| && a < |o.stuck| && o.stuck[a] == folded[i]
    requires folded[h] in o.placed <==> folded[h] !in o.stuck
    ensures folded[h] in o.placed + o.stuck[..a] <==> folded[h] in o.placed || h < i
  {
    KeptPrefix(folded, o.stuck, keep, i, a, h);
  }

  lemma KeptPrefix(folded: seq<ServiceDef>, stuck: seq<ServiceDef>, keep: set<string>, i: nat, a: nat, h: nat)
    requires UniqueNames(folded) && UniqueNames(stuck) && stuck == Keep(folded, keep)
    requires i < |folded| && h < |folded| && a < |stuck| && stuck[a] == folded[i]
    ensures folded[h] in stuck[..a] <==> h < i && folded[h] in stuck
  {
    KeepBefore(folded, keep, i, a);
    KeepMembers(folded, keep);
    InPrefix(folded, i, h);
  }

  lemma UniqueTail(o: Order)
    requires UniqueNames(o.All())
    ensures UniqueNames(o.stuck)
  {
    assert forall k :: 0 <= k < |o.stuck| ==> o.stuck[k] == o.All()[|o.placed| + k];
  }

  lemma InPrefix(defs: seq<ServiceDef>, i: nat, h: nat)
    requires UniqueNames(defs) && i < |defs| && h < |defs|
    ensures defs[h] in defs[..i] <==> h < i
  {
  }

  /** Whether a requirement of definition `i` stands before it in the order. */
  lemma NeedsInOrder(defs: seq<ServiceDef>, i: nat, j: nat, r: string)
    requires UniqueNames(defs) && i < |defs| && r in Needs(defs[i], Names(defs))
    requires j < |BootOrder(defs)| && BootOrder(defs)[j] == EffectiveAfter(defs)[i]
    ensures r in Names(BootOrder(defs)[..j]) <==> !CycleAhead(defs, r) || r in Names(defs[..i])
  {
    var folded := EffectiveAfter(defs);
    var o := Ordered(folded);
    FoldingKeepsNames(defs);
    OrderTheorem(folded);
    if j < |o.placed| {
      NeedsAreEdges(defs, i, r);
      assert o.placed[j] in folded by { SameElements(o.All(), folded); }
      PlacedBefore(AfterGraph(folded), o, j, r);
    } else {
      var d :| d in defs && d.name == r;
      var h :| 0 <= h < |defs| && defs[h] == d;
      assert folded[h] in folded;
      OrderedBefore(folded, o, Names(o.stuck), i, j, h);
      NamedAt(defs, i, h);
    }
  }

  lemma OrderedBefore(folded: seq<ServiceDef>, o: Order, keep: set<string>, i: nat, j: nat, h: nat)
    requires UniqueNames(folded) && UniqueNames(o.All()) && o.stuck == Keep(folded, keep)
    requires multiset(o.All()) == multiset(folded) && i < |folded| && h < |folded|
    requires |o.placed| <= j < |o.All()| && o.All()[j] == folded[i]
    requires folded[h] in o.placed <==> folded[h] !in o.stuck
    ensures folded[h].name in Names(o.All()[..j]) <==> folded[h] in o.placed || h < i
  {
    UniqueTail(o);
    StuckBefore(folded, o, keep, i, j - |o.placed|, h);
    assert o.All()[..j] == o.placed + o.stuck[..j - |o.placed|];
    FoldedAt(folded, o, j, h);
  }

  lemma NamedAt(defs: seq<ServiceDef>, i: nat, h: nat)
    requires UniqueNames(defs) && i < |defs| && h < |defs|
    ensures defs[h].name in Names(defs[..i]) <==> h < i
  {
    if h < i {
      assert defs[h] in defs[..i];
    }
  }

  lemma FoldedAt(folded: seq<ServiceDef>, o: Order, j: nat, h: nat)
    requires UniqueNames(folded) && multiset(o.All()) == multiset(folded) && j <= |o.All()| && h < |folded|
    ensures folded[h].name in Names(o.All()[..j]) <==> folded[h] in o.All()[..j]
  {
    SameElements(o.All(), folded);
    forall e | e in o.All()[..j] && e.name == folded[h].name ensures e == folded[h] {
      assert e in o.All();
      SameNameSameDef(folded, e, folded[h]);
    }
  }

  /** The order puts exactly those services before something they require that the configuration itself puts out of
      order. */
  lemma OutOfOrderExact(defs: seq<ServiceDef>)
    requires UniqueNames(defs)
    ensures TooEarly(BootOrder(defs), Names(defs)) == OutOfOrder(defs)
  {
    var folded, order := EffectiveAfter(defs), BootOrder(defs);
    OrderFacts(defs);
    forall i | 0 <= i < |defs| && WaitsOnCycle(defs, i) ensures defs[i].name in TooEarly(order, Names(defs)) {
      assert folded[i] in order;
      var j :| 0 <= j < |order| && order[j] == folded[i];
      TooEarlyAt(defs, i, j);
    }
    forall j | 0 <= j < |order| && !(Needs(order[j], Names(defs)) <= Names(order[..j]))
      ensures order[j].name in OutOfOrder(defs)
    {
      assert order[j] in folded;
      var i :| 0 <= i < |folded| && folded[i] == order[j];
      TooEarlyAt(defs, i, j);
    }
  }

  lemma TooEarlyAt(defs: seq<ServiceDef>, i: nat, j: nat)
    requires UniqueNames(defs) && i < |defs| && j < |BootOrder(defs)| && BootOrder(defs)[j] == EffectiveAfter(defs)[i]
    ensures !(Needs(BootOrder(defs)[j], Names(defs)) <= Names(BootOrder(defs)[..j])) <==> WaitsOnCycle(defs, i)
    ensures BootOrder(defs)[j].name == defs[i].name
  {
    assert Needs(BootOrder(defs)[j], Names(defs)) == Needs(defs[i], Names(defs));
    forall r | r in Needs(defs[i], Names(defs))
      ensures r in Names(BootOrder(defs)[..j]) <==> !CycleAhead(defs, r) || r in Names(defs[..i])
    {
      NeedsInOrder(defs, i, j, r);
    }
  }

  // ---------------------------------------------------------------- the main theorems

  /** On every graph, cyclic or not, and whatever is refused, `spawn_all` records as running exactly the services
      with no `requires` path to a service whose spawn failed or that is out of order. Where the rescue shell's
      name is not at stake those are the tracked ones, and all but rescue shells run their folded definition. */
  lemma BootExact(os: Os, s: SupState, defs: seq<ServiceDef>, d: ServiceDef)
    requires os.Valid() && s.services == map[] && UniqueNames(defs) && d in defs
    ensures var b := SpawnAll(os, s, defs);
            && (d.name in b.spawned <==> !Reaches(RequiresGraph(defs), d.name, Failed(b) + OutOfOrder(defs)))
            && (d.name !in Exempt(os) ==> (Tracks(b.sup.services, d.name) <==> d.name in b.spawned))
            && (d.name !in Exempt(os) ==> (d.name in Failed(b) <==> d.name in b.refused))
            && (forall p :: p in b.sup.services ==>
                  || b.sup.services[p].def in EffectiveAfter(defs)
                  || (b.sup.services[p].def == FallbackShell() && !os.NoFallback()))
  {
    var order, configured := BootOrder(defs), Names(defs);
    OrderFacts(defs);
    OutOfOrderExact(defs);
    BootLoopClosed(os, s, order, configured, |order|);
    BootLoopDecides(os, s, order, configured, |order|);
    forall j, r | 0 <= j < |order|
      ensures r in Needs(order[j], configured) <==> (order[j].name, r) in RequiresGraph(defs)
    {
      FoldedNeeds(defs, order[j], r);
    }
    var b := SpawnAll(os, s, defs);
    DecidedExact(os, b, order, RequiresGraph(defs), configured, d.name);
    assert forall p :: p in b.sup.services ==> Recorded(os, b, order, b.sup.services[p].def);
  }

  /** Without an ordering cycle nothing is out of order. */
  lemma AcyclicInOrder(defs: seq<ServiceDef>)
    requires !HasCycle(AfterGraph(EffectiveAfter(defs)))
    ensures OutOfOrder(defs) == {}
  {
    CycleIffReached(AfterGraph(EffectiveAfter(defs)));
    assert forall r :: !CycleAhead(defs, r);
  }

  /** Of `defs` the system refuses exactly those named in `fails`. */
  ghost predicate RefusesExactly(os: Os, defs: seq<ServiceDef>, fails: set<string>) {
    forall t, e, kids :: e in defs ==> (os.spawn(t, e, kids).Refused? <==> e.name in fails)
  }

  lemma RefusesEach(os: Os, defs: seq<ServiceDef>, fails: set<string>, i: nat)
    requires RefusesExactly(os, defs, fails) && i < |defs|
    ensures RefusesExactly(os, [defs[i]], fails)
  {
    assert defs[i] in defs;
  }

  /** Only services named in `fails` were refused, and none of those runs unless a rescue shell stands in. */
  lemma RefusedNames(os: Os, b: Boot, order: seq<ServiceDef>, configured: set<string>, fails: set<string>)
    requires Decided(os, b, order, configured, |order|) && RefusesExactly(os, order, fails)
    ensures b.refused <= fails && b.spawned * fails <= Exempt(os)
  {
    forall x | x in b.refused ensures x in fails {
      assert Answered(os, order, x, true);
    }
    forall x | x in b.spawned && x in fails ensures x in Exempt(os) {
      assert x !in b.refused ==> Answered(os, order, x, false);
    }
  }

  lemma BootRefuses(os: Os, s: SupState, defs: seq<ServiceDef>, fails: set<string>)
    requires os.Valid() && s.services == map[] && UniqueNames(defs) && RefusesExactly(os, EffectiveAfter(defs), fails)
    ensures var b := SpawnAll(os, s, defs); b.refused <= fails && b.spawned * fails <= Exempt(os)
  {
    var order := BootOrder(defs);
    OrderFacts(defs);
    BootLoopDecides(os, s, order, Names(defs), |order|);
    RefusedNames(os, SpawnAll(os, s, defs), order, Names(defs), fails);
  }

  /** On every graph: where the system always refuses the same services, none of them called like a rescue shell,
      exactly the services run that have no `requires` path to a refused or out-of-order one. */
  lemma BootRefusing(os: Os, s: SupState, defs: seq<ServiceDef>, fails: set<string>, d: ServiceDef)
    requires os.Valid() && s.services == map[] && UniqueNames(defs) && d in defs
    requires RefusesExactly(os, EffectiveAfter(defs), fails) && fails !! Exempt(os)
    ensures var b := SpawnAll(os, s, defs);
            && (d.name in b.spawned <==> !Reaches(RequiresGraph(defs), d.name, fails + OutOfOrder(defs)))
            && (d.name !in Exempt(os) ==> (Tracks(b.sup.services, d.name) <==> d.name in b.spawned))
  {
    var b, g := SpawnAll(os, s, defs), RequiresGraph(defs);
    var blocked, all := Failed(b) + OutOfOrder(defs), fails + OutOfOrder(defs);
    BootExact(os, s, defs, d);
    BootRefuses(os, s, defs, fails);
    if Reaches(g, d.name, blocked) {
      ReachesMonotone(g, d.name, blocked, all);
    }
    if Reaches(g, d.name, all) {
      var p :| WalkFrom(g, d.name, p) && p[|p| - 1] in all;
      var m := p[|p| - 1];
      assert |p| > 1 ==> (p[|p| - 2], p[|p| - 1]) in g;
      RefusedIsBlocked(os, s, defs, fails, m);
      assert WalkFrom(g, d.name, p) && p[|p| - 1] in {m};
      ReachesTransitive(g, d.name, {m}, blocked);
    }
  }

  lemma RefusedIsBlocked(os: Os, s: SupState, defs: seq<ServiceDef>, fails: set<string>, m: string)
    requires os.Valid() && s.services == map[] && UniqueNames(defs) && m in Names(defs)
    requires RefusesExactly(os, EffectiveAfter(defs), fails) && fails !! Exempt(os)
    requires m in fails + OutOfOrder(defs)
    ensures Reaches(RequiresGraph(defs), m, Failed(SpawnAll(os, s, defs)) + OutOfOrder(defs))
  {
    if m in OutOfOrder(defs) {
      ReachesSelf(RequiresGraph(defs), m, Failed(SpawnAll(os, s, defs)) + OutOfOrder(defs));
    } else {
      var e :| e in defs && e.name == m;
      BootExact(os, s, defs, e);
      BootRefuses(os, s, defs, fails);
    }
  }

  /** With an acyclic folded ordering, `spawn_all` leaves running exactly the services with no `requires` path, of
      any length, to a service whose spawn failed, whenever and however often spawns fail. If the system always
      refuses the same services those are the ones to reach, and if it refuses none nothing is skipped. */
  lemma BootAcyclic(os: Os, s: SupState, defs: seq<ServiceDef>, fails: set<string>, d: ServiceDef)
    requires os.Valid() && s.services == map[] && UniqueNames(defs) && d in defs
    requires !HasCycle(AfterGraph(EffectiveAfter(defs)))
    ensures var b, g := SpawnAll(os, s, defs), RequiresGraph(defs);
            && (d.name in b.spawned <==> !Reaches(g, d.name, Failed(b)))
            && (d.name !in Exempt(os) ==> (Tracks(b.sup.services, d.name) <==> d.name in b.spawned))
            && (RefusesExactly(os, EffectiveAfter(defs), fails) && fails !! Exempt(os) ==>
                  (d.name in b.spawned <==> !Reaches(g, d.name, fails)))
            && (RefusesExactly(os, EffectiveAfter(defs), {}) ==> d.name in b.spawned)
  {
    var b := SpawnAll(os, s, defs);
    AcyclicInOrder(defs);
    assert Failed(b) + OutOfOrder(defs) == Failed(b) && fails + OutOfOrder(defs) == fails;
    BootExact(os, s, defs, d);
    if RefusesExactly(os, EffectiveAfter(defs), fails) && fails !! Exempt(os) {
      BootRefusing(os, s, defs, fails, d);
    }
    if RefusesExactly(os, EffectiveAfter(defs), {}) {
      BootRefusing(os, s, defs, {}, d);
      assert {} + OutOfOrder(defs) == {};
    }
  }
}
