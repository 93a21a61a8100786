/** The supervisor's transitions (`src/supervisor.rs`) as functions on values; `Supervisor` refines them. */
module Supervision {
  import opened Config
  import opened Machine
  import opened Folding
  import opened Ordering

  const MAX_RESTARTS_IN_WINDOW: nat := 5
  const BACKOFF_WINDOW: Duration := 10 * SECOND

  /** A running service. `chain`, `heard` and `born` are history variables that no operation reads: every automatic
      restart since the service was last started afresh, when this very instance last sent WATCHDOG=1, and which
      question to the system started it. */
  datatype Supervised = Supervised(
    def: ServiceDef,
    restartTimes: seq<Instant>,
    startedAt: Instant,
    chain: seq<Instant>,
    heard: Option<Instant>,
    born: nat)

  type Services = map<Pid, Supervised>

  /** `ReadyState` of `src/notify.rs`. */
  datatype Notify = Notify(ready: set<string>, pings: map<string, Instant>) {
    function Forget(name: string): Notify { Notify(ready - {name}, pings - {name}) }
    function ForgetAll(names: set<string>): Notify { Notify(ready - names, pings - names) }
    function LastPing(name: string): Option<Instant> { if name in pings then Some(pings[name]) else None }
  }

  datatype SupState = SupState(services: Services, notify: Notify, kernel: Kernel)

  datatype Outcome = Continue | Halt(name: string) | GaveUp(name: string)

  const SHELL := "shell"

  function FallbackShell(): ServiceDef {
    DEFAULT_DEF.(name := SHELL, path := "/bin/sh", critical := true)
  }

  /** Names that two entries may share: only the rescue shell's, and only where one may be started. */
  ghost function Exempt(os: Os): set<string> {
    if os.NoFallback() then {} else {SHELL}
  }

  function NamesOf(services: Services, pids: set<Pid>): set<string> {
    set p | p in pids && p in services :: services[p].def.name
  }

  ghost predicate Tracks(services: Services, name: string) {
    exists p :: p in services && services[p].def.name == name
  }

  /** The pids tracked under `name`. */
  function Named(services: Services, name: string): set<Pid> {
    set p | p in services && services[p].def.name == name
  }

  // ---------------------------------------------------------------- spawning

  function SpawnWithHistory(os: Os, s: SupState, def: ServiceDef, history: seq<Instant>, chain: seq<Instant>): SupState
  {
    var notify := s.notify.Forget(def.name);
    var now := os.clock(s.kernel.t);
    match os.spawn(s.kernel.t, def, s.kernel.children)
    case Started(pid) =>
      SupState(s.services[pid := Supervised(def, history, now, chain, None, s.kernel.t)], notify, s.kernel.Born(pid))
    case Refused(shell) =>
      if def.critical && shell.Some? then
        SupState(s.services[shell.value := Supervised(FallbackShell(), [], now, [], None, s.kernel.t)], notify,
                 s.kernel.Born(shell.value))
      else SupState(s.services, notify, s.kernel.Advance(1))
  }

  // ---------------------------------------------------------------- boot

  /** The state the boot loop reaches, what it recorded as running, and two history variables: the names whose
      spawn it attempted, in order, and those whose spawn the system refused. */
  datatype Boot = Boot(sup: SupState, spawned: set<string>, attempted: seq<string>, refused: set<string>)

  predicate HardMissing(d: ServiceDef, configured: set<string>, spawned: set<string>) {
    exists r :: r in d.requires_ && r in configured && r !in spawned
  }

  function BootOne(os: Os, b: Boot, d: ServiceDef, configured: set<string>): Boot {
    if HardMissing(d, configured, b.spawned) then b
    else
      var waited := b.sup.(kernel := b.sup.kernel.Advance(|d.afterReady|));
      var sup := SpawnWithHistory(os, waited, d, [], []);
      Boot(sup,
           if Named(sup.services, d.name) != {} then b.spawned + {d.name} else b.spawned,
           b.attempted + [d.name],
           if os.spawn(waited.kernel.t, d, waited.kernel.children).Refused? then b.refused + {d.name} else b.refused)
  }

  /** The loop of `spawn_all` over the first `n` services of an order. */
  function BootLoop(os: Os, s: SupState, order: seq<ServiceDef>, configured: set<string>, n: nat): Boot
    requires n <= |order|
  {
    if n == 0 then Boot(s, {}, [], {})
    else BootOne(os, BootLoop(os, s, order, configured, n - 1), order[n - 1], configured)
  }

  function BootOrder(defs: seq<ServiceDef>): seq<ServiceDef> {
    Ordered(EffectiveAfter(defs)).All()
  }

  function SpawnAll(os: Os, s: SupState, defs: seq<ServiceDef>): Boot {
    BootLoop(os, s, BootOrder(defs), Names(defs), |BootOrder(defs)|)
  }

  // ---------------------------------------------------------------- exits

  function Since(now: Instant, t: Instant): Duration {
    if t <= now then now - t else 0
  }

  /** `retain`: the times less than a window before `now`. */
  function Recent(times: seq<Instant>, now: Instant): seq<Instant> {
    if times == [] then []
    else
      var last := times[|times| - 1];
      Recent(times[..|times| - 1], now) + if Since(now, last) < BACKOFF_WINDOW then [last] else []
  }

  predicate ShouldRestart(policy: RestartPolicy, status: WaitStatus) {
    match policy
    case Never => false
    case Always => true
    case OnFailure => !(status.Exited? && status.code == 0)
  }

  function HandleExit(os: Os, s: SupState, status: WaitStatus): (SupState, Outcome) {
    if !IsExit(status) || status.pid !in s.services then (s, Continue)
    else
      var sup := s.services[status.pid];
      var gone := SupState(s.services - {status.pid}, s.notify.Forget(sup.def.name), s.kernel);
      if sup.def.critical then (gone, Halt(sup.def.name))
      else if !ShouldRestart(sup.def.restart, status) then (gone, Continue)
      else
        var now := os.clock(s.kernel.t);
        var times := Recent(sup.restartTimes, now) + [now];
        var later := gone.(kernel := s.kernel.Advance(1));
        if |times| > MAX_RESTARTS_IN_WINDOW then (later, GaveUp(sup.def.name))
        else (SpawnWithHistory(os, later, sup.def, times, sup.chain + [now]), Continue)
  }

  // ---------------------------------------------------------------- reload

  predicate DefsEqual(a: ServiceDef, b: ServiceDef) {
    && a.path == b.path
    && a.args == b.args
    && a.critical == b.critical
    && a.restart == b.restart
    && a.memoryLimit == b.memoryLimit
    && a.after == b.after
    && a.afterReady == b.afterReady
    && a.before == b.before
    && a.requires_ == b.requires_
    && a.wants == b.wants
    && a.user == b.user
    && a.group == b.group
    && a.watchdogTimeout == b.watchdogTimeout
    && a.environment == b.environment
    && a.workingDir == b.workingDir
    && a.target == b.target
    && a.privateTmp == b.privateTmp
    && a.protectSystem == b.protectSystem
    && a.noNewPrivileges == b.noNewPrivileges
    && a.oomScoreAdjust == b.oomScoreAdjust
  }

  /** Stops processes, in whatever order, and forgets what they had reported; some end up reaped. */
  function StopAll(os: Os, s: SupState, pids: set<Pid>): SupState {
    SupState(s.services - pids, s.notify.ForgetAll(NamesOf(s.services, pids)), StopKernel(os, s.kernel, pids))
  }

  function StopKernel(os: Os, k: Kernel, pids: set<Pid>): Kernel {
    Kernel(k.t + 1, k.children - set p | p in pids && os.reaped(k.t, p))
  }

  function Stale(s: SupState, defs: seq<ServiceDef>): set<Pid> {
    set p | p in s.services && s.services[p].def.name !in Names(defs)
  }

  datatype Reloaded = Reloaded(sup: SupState, touched: seq<string>)

  function ReloadOne(os: Os, s: SupState, def: ServiceDef): Reloaded {
    var found := Named(s.services, def.name);
    var pid := os.pick(s.kernel.t, found);
    if found == {} then Reloaded(SpawnWithHistory(os, s, def, [], []), [def.name])
    else if pid in s.services && DefsEqual(s.services[pid].def, def) then Reloaded(s, [])
    else
      var stopped := s.(services := s.services - {pid}, kernel := StopKernel(os, s.kernel, {pid}));
      Reloaded(SpawnWithHistory(os, stopped, def, [], []), [def.name])
  }

  /** The reconciliation loop over the first `n` definitions. */
  function ReloadLoop(os: Os, s: SupState, defs: seq<ServiceDef>, n: nat): Reloaded
    requires n <= |defs|
  {
    if n == 0 then Reloaded(s, [])
    else
      var r := ReloadLoop(os, s, defs, n - 1);
      var one := ReloadOne(os, r.sup, defs[n - 1]);
      Reloaded(one.sup, r.touched + one.touched)
  }

  function ReloadServices(os: Os, s: SupState, defs: seq<ServiceDef>): Reloaded {
    ReloadLoop(os, StopAll(os, s, Stale(s, defs)), defs, |defs|)
  }

  // ---------------------------------------------------------------- watchdogs

  predicate Expired(s: SupState, pid: Pid, now: Instant)
    requires pid in s.services
  {
    var e := s.services[pid];
    var ping := s.notify.LastPing(e.def.name);
    e.def.watchdogTimeout.Some?
    && Since(now, if ping.Some? then ping.value else e.startedAt) > e.def.watchdogTimeout.value
  }

  function ExpiredWatchdogs(s: SupState, now: Instant): set<Pid> {
    set p | p in s.services && Expired(s, p, now)
  }

  // ---------------------------------------------------------------- shutdown

  /** The table after the grace loop, and the pids whose exit the loop collected. */
  datatype Grace = Grace(left: Services, reaped: seq<Pid>)

  /** The grace loop over `waits`, the results `waitpid` gave before the deadline. */
  function GraceLoop(services: Services, waits: seq<WaitResult>): Grace
    decreases |waits|
  {
    if waits == [] || services == map[] || waits[0].NoChildren? then Grace(services, [])
    else if waits[0].Status? && IsExit(waits[0].status) then
      var pid := waits[0].status.pid;
      var rest := GraceLoop(services - {pid}, waits[1..]);
      Grace(rest.left, [pid] + rest.reaped)
    else GraceLoop(services, waits[1..])
  }

  /** What shutting down did: pids sent SIGTERM, exits collected, pids sent SIGKILL, cgroups swept. */
  datatype Shutdown = Shutdown(
    sup: SupState, terminated: set<Pid>, reaped: seq<Pid>, killed: set<Pid>, swept: set<string>)

  function ShutdownAll(s: SupState, waits: seq<WaitResult>): Shutdown {
    var grace := GraceLoop(s.services, waits);
    var names := NamesOf(s.services, s.services.Keys);
    Shutdown(SupState(grace.left, s.notify.ForgetAll(names), s.kernel),
             s.services.Keys, grace.reaped, grace.left.Keys, names)
  }

  /** For every sequence of wait results each pid tracked on entry is either collected by the grace loop or
      killed, never both; every tracked name has its cgroup swept and its readiness forgotten. */
  lemma {:induction false} ShutdownAccountsForAll(s: SupState, waits: seq<WaitResult>, pid: Pid)
    requires pid in s.services
    ensures var done := ShutdownAll(s, waits);
            && pid in done.terminated
            && (pid in done.killed <==> pid !in done.reaped)
            && s.services[pid].def.name in done.swept
            && s.services[pid].def.name !in done.sup.notify.ready
            && s.services[pid].def.name !in done.sup.notify.pings
  {
    GraceSplits(s.services, waits, pid);
  }

  lemma {:induction false} GraceSplits(services: Services, waits: seq<WaitResult>, pid: Pid)
    ensures var g := GraceLoop(services, waits);
            pid in g.left <==> pid in services && pid !in g.reaped
    decreases |waits|
  {
    if waits == [] || services == map[] || waits[0].NoChildren? {
    } else if waits[0].Status? && IsExit(waits[0].status) {
      var gone := waits[0].status.pid;
      GraceSplits(services - {gone}, waits[1..], pid);
      var rest := GraceLoop(services - {gone}, waits[1..]);
      assert pid in [gone] + rest.reaped <==> pid == gone || pid in rest.reaped;
    } else {
      GraceSplits(services, waits[1..], pid);
    }
  }

  /** The exit of `pid` is among the wait results, before any that says there are no children. */
  ghost predicate Collects(waits: seq<WaitResult>, pid: Pid) {
    exists i :: 0 <= i < |waits| && ExitOf(waits[i], pid) && forall j :: 0 <= j < i ==> !waits[j].NoChildren?
  }

  ghost predicate ExitOf(wait: WaitResult, pid: Pid) {
    wait.Status? && IsExit(wait.status) && wait.status.pid == pid
  }

  lemma CollectsRest(waits: seq<WaitResult>, pid: Pid)
    requires waits != [] && !waits[0].NoChildren? && !ExitOf(waits[0], pid)
    ensures Collects(waits, pid) <==> Collects(waits[1..], pid)
  {
    if Collects(waits, pid) {
      var i :| 0 <= i < |waits| && ExitOf(waits[i], pid) && forall j :: 0 <= j < i ==> !waits[j].NoChildren?;
      assert ExitOf(waits[1..][i - 1], pid);
      assert forall j :: 0 <= j < i - 1 ==> waits[1..][j] == waits[j + 1];
    }
    if Collects(waits[1..], pid) {
      var i :| 0 <= i < |waits[1..]| && ExitOf(waits[1..][i], pid)
               && forall j :: 0 <= j < i ==> !waits[1..][j].NoChildren?;
      assert ExitOf(waits[i + 1], pid);
      forall j | 0 <= j < i + 1 ensures !waits[j].NoChildren? {
        assert j > 0 ==> waits[j] == waits[1..][j - 1];
      }
    }
  }

  lemma {:induction false} GraceCollects(services: Services, waits: seq<WaitResult>, pid: Pid)
    requires pid in services
    ensures pid !in GraceLoop(services, waits).left <==> Collects(waits, pid)
    decreases |waits|
  {
    if waits == [] {
    } else if waits[0].NoChildren? {
      assert forall i :: 0 <= i < |waits| && ExitOf(waits[i], pid) ==> i > 0;
    } else if ExitOf(waits[0], pid) {
      GraceSplits(services, waits, pid);
      assert Collects(waits, pid);
    } else {
      CollectsRest(waits, pid);
      if waits[0].Status? && IsExit(waits[0].status) {
        GraceCollects(services - {waits[0].status.pid}, waits[1..], pid);
      } else {
        GraceCollects(services, waits[1..], pid);
      }
    }
  }

  lemma {:induction false} ReapedExited(services: Services, waits: seq<WaitResult>, pid: Pid)
    requires pid in GraceLoop(services, waits).reaped
    ensures Collects(waits, pid)
    decreases |waits|
  {
    if ExitOf(waits[0], pid) {
      assert Collects(waits, pid);
    } else {
      CollectsRest(waits, pid);
      if waits[0].Status? && IsExit(waits[0].status) {
        ReapedExited(services - {waits[0].status.pid}, waits[1..], pid);
      } else {
        ReapedExited(services, waits[1..], pid);
      }
    }
  }

  lemma {:induction false} GraceKeeps(services: Services, waits: seq<WaitResult>)
    ensures var left := GraceLoop(services, waits).left;
            forall p :: p in left ==> p in services && left[p] == services[p]
    decreases |waits|
  {
    if waits == [] || services == map[] || waits[0].NoChildren? {
    } else if waits[0].Status? && IsExit(waits[0].status) {
      GraceKeeps(services - {waits[0].status.pid}, waits[1..]);
    } else {
      GraceKeeps(services, waits[1..]);
    }
  }

  /** Exactly the tracked pids whose exit the grace period sees are collected, all others are killed; what is left in
      the table are the killed, unchanged. */
  lemma ShutdownExact(s: SupState, waits: seq<WaitResult>)
    ensures var done := ShutdownAll(s, waits);
            && done.terminated == s.services.Keys
            && (forall p :: p in s.services ==> (p in done.killed <==> !Collects(waits, p)))
            && (forall p :: p in done.killed ==> p in s.services)
            && (forall p :: p in done.reaped ==> Collects(waits, p))
            && done.sup.services.Keys == done.killed
            && (forall p :: p in done.killed ==> done.sup.services[p] == s.services[p])
            && (forall x :: x in done.swept <==> Tracks(s.services, x))
            && (forall x :: x in done.sup.notify.ready <==> x in s.notify.ready && !Tracks(s.services, x))
            && (forall x :: x in done.sup.notify.pings <==> x in s.notify.pings && !Tracks(s.services, x))
  {
    var done := ShutdownAll(s, waits);
    forall p | p in s.services ensures p in done.killed <==> !Collects(waits, p) {
      GraceCollects(s.services, waits, p);
    }
    forall p | p in done.reaped ensures Collects(waits, p) {
      ReapedExited(s.services, waits, p);
    }
    GraceKeeps(s.services, waits);
    assert forall x :: x in NamesOf(s.services, s.services.Keys) <==> Tracks(s.services, x);
  }

  lemma DefsEqualIsEquality(a: ServiceDef, b: ServiceDef)
    requires a.name == b.name
    ensures DefsEqual(a, b) <==> a == b
  {
  }
}
