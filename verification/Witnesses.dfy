/** Runs from boot that show where documented behaviour fails: an isolate undone by a rollback, timers that a rollback
    does not bring back, a reload of what booted that restarts a service, a rollback after the ten seconds, and two
    things that go wrong beside a rescue shell: a changed service that is not restarted, a silent one not killed. */
module Witnesses {
  import opened Config
  import opened Machine
  import opened Supervision
  import opened Targets
  import opened Timers
  import opened Folding
  import opened Graphs
  import opened Ordering
  import opened BootTheorems
  import opened EventLoop
  import opened Reconcile
  import opened Runs
  import opened Rollback
  import opened Conformance
  import opened BootReload
  import opened Shells

  // ---------------------------------------------------------------- a system with a stopped clock

  ghost function Above(kids: set<Pid>): (p: Pid)
    ensures forall k :: k in kids ==> k < p
  {
    if kids == {} then 0
    else
      var k :| k in kids;
      var rest := Above(kids - {k});
      assert forall x :: x in kids ==> x == k || x in kids - {k};
      if k < rest then rest else k + 1
  }

  ghost function NewPid(kids: set<Pid>): (p: Pid)
    ensures p !in kids
  {
    Above(kids)
  }

  ghost function FirstOf(pids: set<Pid>): Pid {
    if pids == {} then 0 else var p :| p in pids; p
  }

  /** Refuses the services in `refuse`, offering a shell in their place, and starts everything else. */
  ghost function StoppedClock(refuse: set<string>): Os {
    Os((t: nat, d: ServiceDef, kids: set<Pid>) =>
         if d.name in refuse then Refused(Some(NewPid(kids))) else Started(NewPid(kids)),
       (t: nat) => 0,
       (t: nat, p: Pid) => true,
       (t: nat, s: set<Pid>) => FirstOf(s))
  }

  lemma StoppedClockValid(refuse: set<string>)
    ensures StoppedClock(refuse).Valid() && StoppedClock(refuse).MonotoneClock()
    ensures refuse == {} ==> StoppedClock(refuse).NoFallback()
  {
    var os := StoppedClock(refuse);
    forall t, d, kids ensures Fresh(os.spawn(t, d, kids), kids) {
      assert NewPid(kids) !in kids;
    }
  }

  function Plain(wait: WaitStatus): Input {
    Input(false, None, None, Status(wait), [], [])
  }

  /** A turn in which nothing exits changes nothing after the requests and the timers; the clock does not move,
      so a held watch stays. */
  lemma QuietTurn(refuse: set<string>, st: Loop, inp: Input)
    requires !st.stopped && !inp.shutdown && inp.wait == Status(StillAlive) && inp.datagrams == []
    requires var w := Prepare(StoppedClock(refuse), st, inp).watch; w.Some? ==> w.value.deadline > 0
    ensures var st', p := Turn(StoppedClock(refuse), st, inp), Prepare(StoppedClock(refuse), st, inp);
            && st'.sup.services == p.sup.services && st'.sup.kernel.children == p.sup.kernel.children
            && st' == p.(sup := st'.sup)
  {
  }

  /** What a reload, an isolate or a rollback leaves from a state with owned, unshared entries. */
  lemma Reconciled(os: Os, s: SupState, defs: seq<ServiceDef>)
    requires os.Valid() && Owned(s) && UniqueTracked(s.services, {}) && UniqueNames(defs) && os.AlwaysStarts(defs)
    ensures var r := ReloadServices(os, s, defs);
            && Owned(r.sup) && UniqueTracked(r.sup.services, {})
            && (forall d :: d in defs <==> Holds(r.sup.services, d))
            && (forall d :: d in defs && !Holds(s.services, d) ==> d.name in r.touched)
  {
    ReloadExact(os, s, defs);
    forall d | d in defs && !Holds(s.services, d) ensures d.name in Missing(s.services, defs) {
      MissingHas(s.services, defs, d);
    }
  }

  lemma {:induction false} MissingHas(services: Services, defs: seq<ServiceDef>, d: ServiceDef)
    requires d in defs && !Holds(services, d)
    ensures d.name in Missing(services, defs)
  {
    var last := defs[|defs| - 1];
    if d != last {
      assert d in defs[..|defs| - 1];
      MissingHas(services, defs[..|defs| - 1], d);
    }
  }

  // ---------------------------------------------------------------- the timers stay

  const Y := DEFAULT_DEF.(name := "y", critical := true, target := "A")
  const EMPTY := Configuration(None, Info, 5, "A", [])
  const WITH_Y := EMPTY.(services := [Y])
  const HOURLY := TimerDef("hourly", None, Some(3600 * SECOND))

  lemma BootNothing(os: Os, cfg: Configuration, timers: seq<TimerDef>)
    requires ServicesIn(cfg.services, cfg.defaultTarget) == []
    ensures Booted(os, cfg, timers).sup == SupState(map[], Notify({}, map[]), Kernel(0, {}))
  {
    assert EffectiveAfter([]) == [];
    assert Names([]) == {};
    assert BootOrder([]) == [];
  }

  /** A reload that brings a failing service and a timer, and is rolled back: the configuration in force before it
      is back, but its timer is still scheduled. */
  lemma TimersSurviveRollback() returns (os: Os, trace: seq<Loop>, inputs: seq<Input>)
    ensures |inputs| == 2 && GoodRun(os, trace, inputs, false) && trace[0] == Booted(os, EMPTY, [])
    ensures trace[2].cfg == trace[0].cfg && trace[2].watch == None && !trace[2].stopped
    ensures trace[2].timerDefs != trace[0].timerDefs
  {
    os := StoppedClock({});
    StoppedClockValid({});
    var st0 := Booted(os, EMPTY, []);
    BootNothing(os, EMPTY, []);
    BootedStarts(os, EMPTY, []);
    trace, inputs := RolledBackRun(os, st0);
  }

  /** The state boot reaches when no service is configured. */
  ghost predicate FreshlyBooted(st: Loop) {
    && st.sup == SupState(map[], Notify({}, map[]), Kernel(0, {})) && st.cfg == EMPTY && st.target == "A"
    && st.timerDefs == [] && st.watch.None? && !st.stopped
  }

  lemma RolledBackRun(os: Os, st0: Loop) returns (trace: seq<Loop>, inputs: seq<Input>)
    requires os == StoppedClock({}) && os.Valid() && os.MonotoneClock() && LoopInv(os, st0, false)
    requires FreshlyBooted(st0)
    ensures |inputs| == 2 && IsRun(os, trace, inputs) && trace[0] == st0 && AllGood(inputs)
    ensures trace[2].cfg == EMPTY && trace[2].watch == None && !trace[2].stopped && trace[2].timerDefs == [HOURLY]
  {
    var first := Plain(StillAlive).(reload := Some((WITH_Y, [HOURLY])));
    var st1 := Turn(os, st0, first);
    FailingReload(st0, st1);
    var second := YRolledBack(os, st0, first, st1);
    trace, inputs := TwoTurns(os, st0, st1, first, second);
  }

  lemma TwoTurns(os: Os, st0: Loop, st1: Loop, first: Input, second: Input)
      returns (trace: seq<Loop>, inputs: seq<Input>)
    requires st1 == Turn(os, st0, first) && GoodInput(first) && GoodInput(second)
    ensures |inputs| == 2 && IsRun(os, trace, inputs) && AllGood(inputs)
    ensures trace[0] == st0 && trace[1] == st1 && trace[2] == Turn(os, st1, second) && inputs[1] == second
  {
    var st2 := Turn(os, st1, second);
    ExtendRun(os, [st0], [], first, st1);
    ExtendRun(os, [st0] + [st1], [] + [first], second, st2);
    trace, inputs := [st0] + [st1] + [st2], [] + [first] + [second];
  }

  lemma YRolledBack(os: Os, st0: Loop, first: Input, st1: Loop) returns (second: Input)
    requires os.Valid() && os.MonotoneClock() && LoopInv(os, st0, false) && GoodInput(first)
    requires st1 == Turn(os, st0, first) && Holds(st1.sup.services, Y) && !st1.stopped
    requires st1.watch.Some? && "y" in st1.watch.value.touched
    ensures GoodInput(second) && second.reload.None?
    ensures var st2 := Turn(os, st1, second);
            st2.cfg == st1.watch.value.previous && st2.watch == None && !st2.stopped && st2.timerDefs == st1.timerDefs
  {
    var pid :| pid in st1.sup.services && st1.sup.services[pid].def == Y;
    second := Plain(Exited(pid, 1));
    TurnKeepsInv(os, st0, first, false);
    YDies(os, st1, pid, second);
    PrepareKeepsWatch(os, st1, second);
    RollbackTurn(os, st1, second, st1.watch.value, "y");
  }

  lemma FailingReload(st0: Loop, st1: Loop)
    requires FreshlyBooted(st0)
    requires st1 == Turn(StoppedClock({}), st0, Plain(StillAlive).(reload := Some((WITH_Y, [HOURLY]))))
    ensures Holds(st1.sup.services, Y) && !st1.stopped && st1.timerDefs == [HOURLY]
    ensures st1.watch.Some? && "y" in st1.watch.value.touched && st1.watch.value.previous == EMPTY
  {
    var os, inp := StoppedClock({}), Plain(StillAlive).(reload := Some((WITH_Y, [HOURLY])));
    StoppedClockValid({});
    assert ServicesIn([Y], "A") == [Y];
    Reconciled(os, st0.sup, [Y]);
    QuietTurn({}, st0, inp);
  }

  lemma YDies(os: Os, st: Loop, pid: Pid, inp: Input)
    requires os.Valid() && os.MonotoneClock() && LoopInv(os, st, false) && inp == Plain(Exited(pid, 1))
    requires pid in st.sup.services && st.sup.services[pid].def == Y
    ensures DiesForGood(os, BeforeDispatch(os, st, inp), inp.wait, "y")
  {
    PreparePhase(os, st, inp, false);
    WaitPhase(os, Prepare(os, st, inp), inp, false);
    var at := BeforeDispatch(os, st, inp);
    assert pid in at.sup.services && at.sup.services[pid].def == Y;
    LookPhase(os, Wait(os, Prepare(os, st, inp), inp), inp.wait, false);
    assert pid !in at.sched.pending;
  }

  // ---------------------------------------------------------------- a rollback after the ten seconds

  /** Starts everything; ten seconds pass between any two readings of the clock. */
  ghost function SlowSystem(): Os {
    StoppedClock({}).(clock := (t: nat) => t * 10 * SECOND)
  }

  lemma SlowSystemValid()
    ensures SlowSystem().Valid() && SlowSystem().MonotoneClock() && SlowSystem().AlwaysStarts([Y])
  {
    var os := SlowSystem();
    forall t, d, kids ensures Fresh(os.spawn(t, d, kids), kids) {
      assert NewPid(kids) !in kids;
    }
  }

  const LOAD_Y := Plain(StillAlive).(reload := Some((WITH_Y, [])), wait := Interrupted)

  lemma WatchPastDeadline(st0: Loop, st1: Loop)
    requires FreshlyBooted(st0) && st1 == Turn(SlowSystem(), st0, LOAD_Y)
    ensures LateWatch(SlowSystem(), st1)
  {
    var os := SlowSystem();
    SlowSystemValid();
    assert ServicesIn([Y], "A") == [Y];
    Reconciled(os, st0.sup, [Y]);
    var reloaded := Reload(os, st0, WITH_Y, []);
    assert reloaded.watch.value.deadline <= os.clock(reloaded.sup.kernel.t);
    assert st1.watch == reloaded.watch && reloaded.sup.kernel.t <= st1.sup.kernel.t;
  }

  /** A service brought by a reload fails after the deadline of its watch, which is still held because no wait status
      came in between: the reload is rolled back all the same. */
  lemma LateRollback() returns (os: Os, trace: seq<Loop>, inputs: seq<Input>)
    ensures |inputs| == 2 && GoodRun(os, trace, inputs, false) && trace[0] == Booted(os, EMPTY, [])
    ensures trace[1].watch.Some?
            && trace[1].watch.value.deadline <= os.clock(BeforeDispatch(os, trace[1], inputs[1]).sup.kernel.t)
    ensures trace[1].cfg != trace[0].cfg
    ensures trace[2].cfg == trace[0].cfg && trace[2].watch == None && !trace[2].stopped
  {
    os := SlowSystem();
    SlowSystemValid();
    var st0 := Booted(os, EMPTY, []);
    BootNothing(os, EMPTY, []);
    BootedStarts(os, EMPTY, []);
    WatchPastDeadline(st0, Turn(os, st0, LOAD_Y));
    trace, inputs := LateRun(os, st0, LOAD_Y, Turn(os, st0, LOAD_Y));
  }

  /** The state after the reload: `y` runs and is watched, past the deadline. */
  ghost predicate LateWatch(os: Os, st: Loop) {
    && Holds(st.sup.services, Y) && !st.stopped && st.cfg == WITH_Y
    && st.watch.Some? && "y" in st.watch.value.touched && st.watch.value.previous == EMPTY
    && st.watch.value.deadline <= os.clock(st.sup.kernel.t)
  }

  lemma LateRun(os: Os, st0: Loop, first: Input, st1: Loop) returns (trace: seq<Loop>, inputs: seq<Input>)
    requires os.Valid() && os.MonotoneClock() && Starts(os, st0) && GoodInput(first)
    requires st1 == Turn(os, st0, first) && LateWatch(os, st1)
    ensures |inputs| == 2 && GoodRun(os, trace, inputs, false) && trace[0] == st0 && trace[1] == st1
    ensures st1.watch.value.deadline <= os.clock(BeforeDispatch(os, st1, inputs[1]).sup.kernel.t)
    ensures trace[2].cfg == EMPTY && trace[2].watch == None && !trace[2].stopped
  {
    var second := YRolledBack(os, st0, first, st1);
    trace, inputs := TwoTurns(os, st0, st1, first, second);
    TurnKeepsInv(os, st0, first, false);
    LateReading(os, st1, second);
  }

  lemma LateReading(os: Os, st: Loop, inp: Input)
    requires os.Valid() && os.MonotoneClock() && LoopInv(os, st, false) && inp.reload.None?
    ensures os.clock(st.sup.kernel.t) <= os.clock(BeforeDispatch(os, st, inp).sup.kernel.t)
  {
    BeforeDispatchLater(os, st, inp);
  }

  // ---------------------------------------------------------------- a reload of what booted

  const A := DEFAULT_DEF.(name := "a", target := "A")
  const B := DEFAULT_DEF.(name := "b", target := "A", requires_ := ["a"])
  const B_FOLDED := B.(after := ["a"])
  const PAIR := EMPTY.(services := [A, B])
  const SAME_AGAIN := Plain(StillAlive).(reload := Some((PAIR, [])))

  lemma {:induction false} NoPairs(defs: seq<ServiceDef>)
    requires forall d :: d in defs ==> d.before == []
    ensures BeforePairs(defs) == []
  {
    if defs == [] {
    } else {
      assert defs[|defs| - 1] in defs;
      NoPairs(defs[..|defs| - 1]);
    }
  }

  lemma FoldedPair()
    ensures EffectiveAfter([A, B]) == [A, B_FOLDED] && UniqueNames([A, B]) && ServicesIn([A, B], "A") == [A, B]
  {
    var defs, folded := [A, B], EffectiveAfter([A, B]);
    assert "a"[0] != "b"[0];
    assert defs[..1] == [A] && [A][..0] == [] && defs[1..] == [B] && [B][1..] == [];
    NoPairs(defs);
    assert A.requires_ + A.wants == [] && B.requires_ + B.wants == ["a"] && ["a"][..0] == [];
    assert AddAll([], ["a"]) == Push(AddAll([], []), "a");
    assert Sources([], "a") == [] && Sources([], "b") == [];
    assert ServicesIn([B], "A") == [B];
    assert FirstNamed(defs, "a") == 0;
    assert FirstNamed(defs, "b") == 1;
    assert HardAfter(A) == [] && HardAfter(B) == ["a"];
    assert InjectedAfter(defs, [], 0) == [] && InjectedAfter(defs, [], 1) == ["a"];
    assert folded[0] == A && folded[1] == B_FOLDED;
  }

  /** The folded pair is in dependency order, so it has no cycle. */
  lemma PairAcyclic()
    ensures !HasCycle(AfterGraph([A, B_FOLDED]))
  {
    var folded := [A, B_FOLDED];
    assert folded[..1] == [A];
    assert A in [A] && "a" in Names([A]);
    forall k | 0 <= k < |folded| ensures Ready(folded[k], Names(folded), Names(folded[..k])) {
      assert k == 0 || k == 1;
    }
    OrderIdentity(folded);
    assert UniqueNames(folded);
    OrderTheorem(folded);
  }

  lemma PairBoots(os: Os, d: ServiceDef)
    requires os == StoppedClock({}) && d in [A, B]
    ensures Tracks(Booted(os, PAIR, []).sup.services, d.name)
  {
    StoppedClockValid({});
    FoldedPair();
    PairAcyclic();
    var start := SupState(map[], Notify({}, map[]), Kernel(0, {}));
    assert RefusesExactly(os, [A, B_FOLDED], {});
    BootAcyclic(os, start, [A, B], {}, d);
  }

  /** Both services of a configuration run; reloading that very configuration restarts one of them, because boot had
      folded what it requires into its `after` list. */
  lemma ReloadRestartsUnchanged() returns (os: Os, trace: seq<Loop>, inputs: seq<Input>)
    ensures |inputs| == 1 && GoodRun(os, trace, inputs, false) && trace[0] == Booted(os, PAIR, [])
    ensures inputs[0].reload == Some((trace[0].cfg, trace[0].timerDefs)) && inputs[0].isolate.None?
    ensures forall d :: d in PAIR.services ==> Tracks(trace[0].sup.services, d.name)
    ensures trace[1].watch.Some? && trace[1].watch.value.touched == ["b"] && trace[1].cfg == trace[0].cfg
    ensures Holds(trace[1].sup.services, A) && Holds(trace[1].sup.services, B)
    ensures forall p :: p in trace[0].sup.services && trace[0].sup.services[p].def.name == "b" ==>
              p !in trace[1].sup.services || trace[1].sup.services[p] != trace[0].sup.services[p]
  {
    os := StoppedClock({});
    StoppedClockValid({});
    FoldedPair();
    BootedStarts(os, PAIR, []);
    forall d | d in PAIR.services ensures Tracks(Booted(os, PAIR, []).sup.services, d.name) {
      PairBoots(os, d);
    }
    RunsFoldedInRun(os, PAIR, [], [Booted(os, PAIR, [])], [], 0);
    PairReloaded(os, Booted(os, PAIR, []));
    trace, inputs := PairRun(os, Booted(os, PAIR, []));
  }

  lemma PairRun(os: Os, st0: Loop) returns (trace: seq<Loop>, inputs: seq<Input>)
    requires os.Valid() && os.MonotoneClock() && Starts(os, st0) && GoodInput(SAME_AGAIN)
    requires PairRestarted(st0, Turn(os, st0, SAME_AGAIN))
    ensures |inputs| == 1 && GoodRun(os, trace, inputs, false) && trace[0] == st0 && inputs[0] == SAME_AGAIN
    ensures PairRestarted(st0, trace[1])
  {
    var st1 := Turn(os, st0, SAME_AGAIN);
    ExtendRun(os, [st0], [], SAME_AGAIN, st1);
    trace, inputs := [st0] + [st1], [] + [SAME_AGAIN];
  }

  ghost predicate PairRestarted(st0: Loop, st1: Loop) {
    && st1.watch.Some? && st1.watch.value.touched == ["b"] && st1.cfg == PAIR
    && Holds(st1.sup.services, A) && Holds(st1.sup.services, B)
    && forall p :: p in st0.sup.services && st0.sup.services[p].def.name == "b" ==>
         p !in st1.sup.services || st1.sup.services[p] != st0.sup.services[p]
  }

  lemma PairReloaded(os: Os, st0: Loop)
    requires os == StoppedClock({}) && RunsFolded(os, st0.sup, [A, B]) && st0.target == "A" && !st0.stopped
    ensures PairRestarted(st0, Turn(os, st0, SAME_AGAIN))
  {
    StoppedClockValid({});
    FoldedPair();
    ReloadOfFolded(os, st0.sup, [A, B]);
    EnlargedPair();
    Reconciled(os, st0.sup, [A, B]);
    QuietTurn({}, st0, SAME_AGAIN);
    FoldedGone(os, st0.sup, Turn(os, st0, SAME_AGAIN).sup);
  }

  lemma FoldedGone(os: Os, s0: SupState, s1: SupState)
    requires RunsFolded(os, s0, [A, B]) && forall d :: Holds(s1.services, d) ==> d in [A, B]
    ensures forall p :: p in s0.services && s0.services[p].def.name == "b" ==>
              p !in s1.services || s1.services[p] != s0.services[p]
  {
    FoldedPair();
    forall p | p in s0.services && s0.services[p].def.name == "b"
      ensures p !in s1.services || s1.services[p] != s0.services[p]
    {
      assert s0.services[p].def == B_FOLDED;
      assert B_FOLDED.after != B.after && B_FOLDED !in [A, B];
      assert !Holds(s1.services, B_FOLDED);
    }
  }

  lemma EnlargedPair()
    ensures Enlarged([A, B], [A, B_FOLDED]) == ["b"]
  {
    assert [A, B][..1] == [A] && [A, B_FOLDED][..1] == [A] && [A][..0] == [];
    assert Enlarged([A], [A]) == [];
    assert B.after != B_FOLDED.after;
  }

  // ---------------------------------------------------------------- the isolate is undone

  const X := DEFAULT_DEF.(name := "x", target := "A")
  const REAL_SHELL := DEFAULT_DEF.(name := SHELL, path := "/bin/mitos-shell", critical := true, target := "A")
  const RESCUED := DEFAULT_DEF.(name := "c", critical := true, target := "B")
  const ONLY_X := Configuration(None, Info, 5, "Z", [X])
  const MORE := ONLY_X.(services := [X, REAL_SHELL, RESCUED])

  const TO_A := Plain(StillAlive).(isolate := Some("A"))
  const TO_B := Plain(StillAlive).(isolate := Some("B"))
  const LOAD_MORE := Plain(StillAlive).(reload := Some((MORE, [])))

  ghost function Rescuing(): Os {
    StoppedClock({"c"})
  }

  /** Nothing but these definitions runs, each once, under configuration `cfg` in target `target`. */
  ghost predicate Settled(st: Loop, defs: seq<ServiceDef>, cfg: Configuration, target: string) {
    && Owned(st.sup) && UniqueTracked(st.sup.services, {})
    && (forall d :: d in defs <==> Holds(st.sup.services, d))
    && st.cfg == cfg && st.target == target && st.timerDefs == [] && !st.stopped && st.sched.pending == map[]
  }

  lemma StepA(st0: Loop)
    requires Settled(st0, [], ONLY_X, "Z") && st0.watch.None?
    ensures var st1 := Turn(Rescuing(), st0, TO_A); Settled(st1, [X], ONLY_X, "A") && st1.watch.None?
  {
    StoppedClockValid({"c"});
    assert ONLY_X.services[0].target == "A";
    assert ServicesIn([X], "A") == [X];
    Reconciled(Rescuing(), st0.sup, [X]);
    QuietTurn({"c"}, st0, TO_A);
  }

  lemma StepReload(st1: Loop)
    requires Settled(st1, [X], ONLY_X, "A") && st1.watch.None?
    ensures var st2 := Turn(Rescuing(), st1, LOAD_MORE);
            && Settled(st2, [X, REAL_SHELL], MORE, "A")
            && Watching(st2)
  {
    StoppedClockValid({"c"});
    assert ServicesIn(MORE.services, "A") == [X, REAL_SHELL] by {
      assert MORE.services[1..] == [REAL_SHELL, RESCUED] && [REAL_SHELL, RESCUED][1..] == [RESCUED];
      assert ServicesIn([RESCUED], "A") == [];
      assert ServicesIn([REAL_SHELL, RESCUED], "A") == [REAL_SHELL];
    }
    Reconciled(Rescuing(), st1.sup, [X, REAL_SHELL]);
    QuietTurn({"c"}, st1, LOAD_MORE);
  }

  /** The watch left by the reload of `MORE`. */
  ghost predicate Watching(st: Loop) {
    st.watch.Some? && st.watch.value.previous == ONLY_X && st.watch.value.target == "A"
    && SHELL in st.watch.value.touched && st.watch.value.deadline > 0
  }

  /** Only the rescue shell runs. */
  ghost predicate Rescued(st: Loop, p: Pid) {
    && st.sup.services.Keys == {p} && st.sup.services[p].def == FallbackShell()
    && st.cfg == MORE && st.target == "B" && st.timerDefs == [] && !st.stopped && st.sched.pending == map[]
  }

  lemma StepB(st2: Loop) returns (p: Pid)
    requires Settled(st2, [X, REAL_SHELL], MORE, "A") && Watching(st2)
    ensures var st3 := Turn(Rescuing(), st2, TO_B); Rescued(st3, p) && Watching(st3)
  {
    var os := Rescuing();
    assert ServicesIn(MORE.services, "B") == [RESCUED] by {
      assert MORE.services[1..] == [REAL_SHELL, RESCUED] && [REAL_SHELL, RESCUED][1..] == [RESCUED];
      assert ServicesIn([RESCUED], "B") == [RESCUED];
      assert ServicesIn([REAL_SHELL, RESCUED], "B") == [RESCUED];
    }
    assert MORE.services[2].target == "B";
    p := OnlyRescued(st2.sup);
    QuietTurn({"c"}, st2, TO_B);
  }

  lemma OnlyRescued(s: SupState) returns (p: Pid)
    requires forall d :: Holds(s.services, d) ==> d == X || d == REAL_SHELL
    ensures var r := ReloadServices(Rescuing(), s, [RESCUED]).sup;
            r.services.Keys == {p} && r.services[p].def == FallbackShell()
  {
    var os := Rescuing();
    forall q | q in s.services ensures q in Stale(s, [RESCUED]) {
      assert Holds(s.services, s.services[q].def);
    }
    var s1 := StopAll(os, s, Stale(s, [RESCUED]));
    assert s1.services == map[];
    assert Named(s1.services, "c") == {};
    p := NewPid(s1.kernel.children);
    assert ReloadLoop(os, s1, [RESCUED], 0).sup == s1;
    assert ReloadLoop(os, s1, [RESCUED], 1).sup == ReloadOne(os, s1, RESCUED).sup;
  }

  lemma StepExit(st3: Loop, p: Pid)
    requires Rescued(st3, p) && Watching(st3)
    ensures var st4 := Turn(Rescuing(), st3, Plain(Exited(p, 0)));
            !st4.stopped && st4.cfg == ONLY_X && st4.target == "B" && Holds(st4.sup.services, X)
  {
    var os, inp := Rescuing(), Plain(Exited(p, 0));
    StoppedClockValid({"c"});
    var at := BeforeDispatch(os, st3, inp);
    assert at.sup.services == st3.sup.services && at.watch == st3.watch && at.sched == st3.sched;
    DispatchExit(os, at, inp.wait, []);
    var next := AfterReap(os, at, p);
    var (gone, outcome) := HandleExit(os, next.sup, inp.wait.status);
    assert gone.services == map[] && outcome == Halt(SHELL);
    assert ServicesIn([X], "A") == [X];
    Reconciled(os, gone, [X]);
  }

  lemma GoodInputs()
    ensures GoodInput(TO_A) && GoodInput(TO_B) && GoodInput(LOAD_MORE)
  {
  }

  ghost predicate AllGood(inputs: seq<Input>) {
    forall i :: 0 <= i < |inputs| ==> GoodInput(inputs[i])
  }

  lemma FirstTurns(st0: Loop) returns (trace: seq<Loop>, inputs: seq<Input>)
    requires Settled(st0, [], ONLY_X, "Z") && st0.watch.None?
    ensures |inputs| == 2 && IsRun(Rescuing(), trace, inputs) && trace[0] == st0 && AllGood(inputs)
    ensures Settled(trace[2], [X, REAL_SHELL], MORE, "A") && Watching(trace[2])
  {
    GoodInputs();
    StepA(st0);
    var st1 := Turn(Rescuing(), st0, TO_A);
    StepReload(st1);
    trace, inputs := TwoTurns(Rescuing(), st0, st1, TO_A, LOAD_MORE);
  }

  lemma LastTurns(trace2: seq<Loop>, inputs2: seq<Input>) returns (trace: seq<Loop>, inputs: seq<Input>)
    requires |inputs2| == 2 && IsRun(Rescuing(), trace2, inputs2) && AllGood(inputs2)
    requires Settled(trace2[2], [X, REAL_SHELL], MORE, "A") && Watching(trace2[2])
    ensures |inputs| == 4 && IsRun(Rescuing(), trace, inputs) && trace[0] == trace2[0] && AllGood(inputs)
    ensures var st := trace[4]; !st.stopped && st.cfg == ONLY_X && st.target == "B" && Holds(st.sup.services, X)
  {
    GoodInputs();
    var p := StepB(trace2[2]);
    var st3 := Turn(Rescuing(), trace2[2], TO_B);
    ExtendRun(Rescuing(), trace2, inputs2, TO_B, st3);
    StepExit(st3, p);
    var st4 := Turn(Rescuing(), st3, Plain(Exited(p, 0)));
    ExtendRun(Rescuing(), trace2 + [st3], inputs2 + [TO_B], Plain(Exited(p, 0)), st4);
    trace, inputs := trace2 + [st3] + [st4], inputs2 + [TO_B] + [Plain(Exited(p, 0))];
  }

  /** A run from boot in which an isolate is undone: a service of the earlier target is left running although the
      active target has none. Only a rescue shell, which answers to a name the reload touched, makes it possible. */
  lemma IsolateUndone() returns (os: Os, trace: seq<Loop>, inputs: seq<Input>)
    ensures |inputs| == 4 && GoodRun(os, trace, inputs, false) && trace[0] == Booted(os, ONLY_X, [])
    ensures !trace[4].stopped
    ensures !Conforms(os, ServicesIn(ONLY_X.services, ONLY_X.defaultTarget), trace[4].sup.services,
                      ServicesIn(trace[4].cfg.services, trace[4].target))
  {
    os := Rescuing();
    StoppedClockValid({"c"});
    var st0 := Booted(os, ONLY_X, []);
    assert ServicesIn([X], "Z") == [];
    BootNothing(os, ONLY_X, []);
    BootedStarts(os, ONLY_X, []);
    var trace2, inputs2 := FirstTurns(st0);
    trace, inputs := LastTurns(trace2, inputs2);
    XStrays(os, trace[4]);
  }

  lemma XStrays(os: Os, st: Loop)
    requires st.cfg == ONLY_X && st.target == "B" && Holds(st.sup.services, X)
    ensures !Conforms(os, ServicesIn(ONLY_X.services, ONLY_X.defaultTarget), st.sup.services,
                      ServicesIn(st.cfg.services, st.target))
  {
    var q :| q in st.sup.services && st.sup.services[q].def == X;
    assert ONLY_X.services == [X] && [X][1..] == [];
    assert X.target == "A" && X.name == "x";
    assert ServicesIn([], "B") == [] && ServicesIn([], "Z") == [];
    assert ServicesIn([X], "B") == [] && ServicesIn([X], "Z") == [];
    assert |SHELL| != |X.name|;
    assert X.name !in Exempt(os);
    assert !Carries([], [], X);
  }

  // ---------------------------------------------------------------- beside a rescue shell

  const SHELL_ONE := DEFAULT_DEF.(name := SHELL, path := "/bin/one", target := "A",
                                  watchdogTimeout := Some(15 * SECOND))
  const SHELL_TWO := SHELL_ONE.(path := "/bin/two")
  const LOST := DEFAULT_DEF.(name := "c", critical := true, target := "A")
  const WITH_ONE := EMPTY.(services := [SHELL_ONE, LOST])
  const WITH_TWO := EMPTY.(services := [SHELL_TWO])

  ghost function LastOf(pids: set<Pid>): (p: Pid)
    ensures pids != {} ==> p in pids && forall q :: q in pids ==> q <= p
  {
    if pids == {} then 0
    else
      var k :| k in pids;
      var rest := LastOf(pids - {k});
      assert forall x :: x in pids ==> x == k || x in pids - {k};
      if pids - {k} == {} || rest < k then k else rest
  }

  /** Refuses `c`, is slow, and iterations meet the youngest entry first. */
  ghost function YoungestFirst(): Os {
    StoppedClock({"c"}).(clock := (t: nat) => t * 10 * SECOND, pick := (t: nat, s: set<Pid>) => LastOf(s))
  }

  lemma YoungestFirstValid()
    ensures YoungestFirst().Valid() && YoungestFirst().MonotoneClock()
  {
    var os := YoungestFirst();
    forall t, d, kids ensures Fresh(os.spawn(t, d, kids), kids) {
      assert NewPid(kids) !in kids;
    }
  }

  /** A configured service called `shell` and a rescue shell, both just started. */
  ghost predicate TwoShells(s: SupState, p: Pid, q: Pid) {
    && p < q && s.kernel == Kernel(2, {p, q}) && s.notify == Notify({}, map[])
    && s.services == map[p := Supervised(SHELL_ONE, [], 0, [], None, 0),
                         q := Supervised(FallbackShell(), [], 10 * SECOND, [], None, 1)]
  }

  lemma NoFolding()
    ensures EffectiveAfter([SHELL_ONE, LOST]) == [SHELL_ONE, LOST] && UniqueNames([SHELL_ONE, LOST])
    ensures BootOrder([SHELL_ONE, LOST]) == [SHELL_ONE, LOST]
    ensures ServicesIn([SHELL_ONE, LOST], "A") == [SHELL_ONE, LOST]
  {
    var defs := [SHELL_ONE, LOST];
    assert |SHELL| != |"c"|;
    NoPairs(defs);
    assert SHELL_ONE.requires_ + SHELL_ONE.wants == [] && LOST.requires_ + LOST.wants == [];
    assert Sources([], SHELL) == [] && Sources([], "c") == [];
    assert HardAfter(SHELL_ONE) == [] && HardAfter(LOST) == [];
    assert EffectiveAfter(defs)[0] == SHELL_ONE && EffectiveAfter(defs)[1] == LOST;
    OrderIdentity(defs);
    assert defs[1..] == [LOST] && [LOST][1..] == [];
    assert ServicesIn([LOST], "A") == [LOST];
  }

  lemma FirstBoots(b: Boot, names: set<string>) returns (p: Pid)
    requires b.sup == SupState(map[], Notify({}, map[]), Kernel(0, {}))
    ensures BootOne(YoungestFirst(), b, SHELL_ONE, names).sup ==
            SupState(map[p := Supervised(SHELL_ONE, [], 0, [], None, 0)], Notify({}, map[]), Kernel(1, {p}))
  {
    p := NewPid({});
    assert |SHELL| != |"c"|;
    assert {} + {p} == {p};
  }

  lemma RescueBoots(b: Boot, names: set<string>, p: Pid) returns (q: Pid)
    requires b.sup == SupState(map[p := Supervised(SHELL_ONE, [], 0, [], None, 0)], Notify({}, map[]), Kernel(1, {p}))
    ensures TwoShells(BootOne(YoungestFirst(), b, LOST, names).sup, p, q)
  {
    q := Above({p});
    assert p in {p} && {p} + {q} == {p, q};
  }

  lemma BootsBeside() returns (p: Pid, q: Pid)
    ensures TwoShells(Booted(YoungestFirst(), WITH_ONE, []).sup, p, q)
  {
    var os, start := YoungestFirst(), SupState(map[], Notify({}, map[]), Kernel(0, {}));
    NoFolding();
    p, q := LoopBoots(os, start, [SHELL_ONE, LOST], Names([SHELL_ONE, LOST]));
  }

  lemma LoopBoots(os: Os, start: SupState, order: seq<ServiceDef>, names: set<string>) returns (p: Pid, q: Pid)
    requires os == YoungestFirst() && start == SupState(map[], Notify({}, map[]), Kernel(0, {}))
    requires |order| == 2 && order[0] == SHELL_ONE && order[1] == LOST
    ensures TwoShells(BootLoop(os, start, order, names, 2).sup, p, q)
  {
    p := FirstBoots(BootLoop(os, start, order, names, 0), names);
    q := RescueBoots(BootLoop(os, start, order, names, 1), names, p);
  }

  const LOAD_TWO := Plain(StillAlive).(reload := Some((WITH_TWO, [])), wait := Interrupted)

  lemma OldShellStays(s: SupState, p: Pid, q: Pid)
    requires TwoShells(s, p, q)
    ensures var r := ReloadServices(YoungestFirst(), s, [SHELL_TWO]);
            r.touched == [SHELL] && p in r.sup.services && r.sup.services[p].def == SHELL_ONE
  {
    var os, defs := YoungestFirst(), [SHELL_TWO];
    assert SHELL_TWO in defs && SHELL in Names(defs);
    var s1 := StopAll(os, s, Stale(s, defs));
    assert Stale(s, defs) == {};
    assert s1.services == s.services;
    RescueMet(s1, p, q);
    assert ReloadLoop(os, s1, defs, 0) == Reloaded(s1, []);
    assert ReloadLoop(os, s1, defs, 1).sup == ReloadOne(os, s1, SHELL_TWO).sup;
  }

  lemma RescueMet(s: SupState, p: Pid, q: Pid)
    requires p < q && s.services.Keys == {p, q} && s.kernel.children == {p, q}
    requires s.services[p].def == SHELL_ONE && s.services[q].def == FallbackShell()
    ensures var r := ReloadOne(YoungestFirst(), s, SHELL_TWO);
            r.touched == [SHELL] && p in r.sup.services && r.sup.services[p].def == SHELL_ONE
  {
    var os := YoungestFirst();
    var found := Named(s.services, SHELL);
    assert p in found && q in found && forall x :: x in found ==> x == p || x == q;
    assert os.pick(s.kernel.t, found) == q;
    assert FallbackShell().path != SHELL_TWO.path;
    var stopped := s.(services := s.services - {q}, kernel := StopKernel(os, s.kernel, {q}));
    assert p in stopped.kernel.children;
  }

  /** A reload changes the definition of the service called `shell` while a rescue shell runs beside it: the rescue
      shell is replaced and the service goes on running with a definition that is not configured any more. */
  lemma ChangedShellStays() returns (os: Os, trace: seq<Loop>, inputs: seq<Input>)
    ensures |inputs| == 1 && GoodRun(os, trace, inputs, false) && trace[0] == Booted(os, WITH_ONE, [])
    ensures trace[1].cfg == WITH_TWO && !trace[1].stopped && trace[1].target == "A"
    ensures trace[1].watch.Some? && trace[1].watch.value.touched == [SHELL]
    ensures exists p :: p in trace[0].sup.services && p in trace[1].sup.services
                        && trace[0].sup.services[p].def == SHELL_ONE && trace[1].sup.services[p].def == SHELL_ONE
    ensures !StrictlyConforms(os, ServicesIn(WITH_ONE.services, "A"), trace[1].sup.services,
                              ServicesIn(trace[1].cfg.services, trace[1].target))
  {
    os := YoungestFirst();
    YoungestFirstValid();
    NoFolding();
    BootedStarts(os, WITH_ONE, []);
    var p, q := BootsBeside();
    trace, inputs := StrayRun(os, Booted(os, WITH_ONE, []), p, q);
    StrayIsWrong(os, trace[1], p);
  }

  lemma StrayRun(os: Os, st0: Loop, p: Pid, q: Pid) returns (trace: seq<Loop>, inputs: seq<Input>)
    requires os == YoungestFirst() && os.Valid() && os.MonotoneClock() && Starts(os, st0)
    requires TwoShells(st0.sup, p, q) && st0.target == "A"
    ensures |inputs| == 1 && GoodRun(os, trace, inputs, false) && trace[0] == st0
    ensures trace[1].cfg == WITH_TWO && !trace[1].stopped && trace[1].target == "A"
    ensures trace[1].watch.Some? && trace[1].watch.value.touched == [SHELL]
    ensures p in trace[1].sup.services && trace[1].sup.services[p].def == SHELL_ONE
  {
    assert ServicesIn([SHELL_TWO], "A") == [SHELL_TWO];
    OldShellStays(st0.sup, p, q);
    var st1 := Turn(os, st0, LOAD_TWO);
    assert st1.sup.services == ReloadServices(os, st0.sup, [SHELL_TWO]).sup.services;
    ExtendRun(os, [st0], [], LOAD_TWO, st1);
    trace, inputs := [st0] + [st1], [] + [LOAD_TWO];
  }

  lemma StrayIsWrong(os: Os, st: Loop, p: Pid)
    requires st.cfg == WITH_TWO && st.target == "A" && p in st.sup.services && st.sup.services[p].def == SHELL_ONE
    ensures !StrictlyConforms(os, ServicesIn(WITH_ONE.services, "A"), st.sup.services,
                              ServicesIn(st.cfg.services, st.target))
  {
    NoFolding();
    assert ServicesIn([SHELL_TWO], "A") == [SHELL_TWO];
    assert SHELL_ONE.path != SHELL_TWO.path && SHELL_ONE.path != FallbackShell().path;
    assert |SHELL| != |"c"|;
    assert !Carries([SHELL_ONE, LOST], [SHELL_TWO], SHELL_ONE);
    assert !Rightful(os, [SHELL_ONE, LOST], [SHELL_TWO], st.sup.services[p].def);
  }

  /** A ping of the rescue shell counts for the service of the same name: it is not killed although it never pinged
      and was started longer ago than its timeout. */
  lemma SilentShellSpared() returns (os: Os, trace: seq<Loop>, inputs: seq<Input>, p: Pid)
    ensures |inputs| == 1 && GoodRun(os, trace, inputs, true) && trace[0] == Booted(os, WITH_ONE, [])
    ensures var s := Wait(os, Prepare(os, trace[0], inputs[0]), inputs[0]).sup;
            && p in s.services && s.services[p].def == SHELL_ONE && s.services[p].heard == None
            && os.clock(s.kernel.t) - s.services[p].startedAt > SHELL_ONE.watchdogTimeout.value
    ensures p !in WatchdogKills(os, trace[0], inputs[0])
  {
    os := YoungestFirst();
    YoungestFirstValid();
    NoFolding();
    BootedStarts(os, WITH_ONE, []);
    var q;
    p, q := BootsBeside();
    var st0, inp := Booted(os, WITH_ONE, []), Pinging(q);
    SparedTurn(os, st0, p, q);
    trace, inputs := OneTurn(os, st0, inp);
  }

  function Pinging(q: Pid): Input {
    Plain(StillAlive).(wait := Interrupted, datagrams := [Datagram(q, SHELL, true)])
  }

  lemma SparedTurn(os: Os, st0: Loop, p: Pid, q: Pid)
    requires os == YoungestFirst() && TwoShells(st0.sup, p, q) && st0.timerDefs == []
    ensures var s := Wait(os, Prepare(os, st0, Pinging(q)), Pinging(q)).sup;
            && p in s.services && s.services[p].def == SHELL_ONE && s.services[p].heard == None
            && os.clock(s.kernel.t) - s.services[p].startedAt > SHELL_ONE.watchdogTimeout.value
    ensures p !in WatchdogKills(os, st0, Pinging(q)) && TimelyInput(os, st0, Pinging(q))
  {
    var inp := Pinging(q);
    var prepared := Prepare(os, st0, inp);
    assert prepared.sup == st0.sup;
    var s := Wait(os, prepared, inp).sup;
    assert ReceiveAll(os, st0.sup, inp.datagrams, 0) == st0.sup;
    assert ReceiveAll(os, st0.sup, inp.datagrams, 1) == Receive(os, st0.sup, inp.datagrams[0]);
    assert s == Receive(os, st0.sup, Datagram(q, SHELL, true));
    assert s.notify.pings[SHELL] == 20 * SECOND && s.kernel.t == 3;
  }

  lemma OneTurn(os: Os, st0: Loop, inp: Input) returns (trace: seq<Loop>, inputs: seq<Input>)
    requires os.Valid() && os.MonotoneClock() && Starts(os, st0) && GoodInput(inp) && TimelyInput(os, st0, inp)
    ensures inputs == [inp] && GoodRun(os, trace, inputs, true) && trace[0] == st0
  {
    var st1 := Turn(os, st0, inp);
    ExtendRun(os, [st0], [], inp, st1);
    trace, inputs := [st0] + [st1], [] + [inp];
  }
}
