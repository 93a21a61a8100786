# mitos-services, modelled and proved in Dafny

This project models the service-supervision engine of mitos-services: how it orders and boots services, how it
supervises, restarts and reloads them, how a bad reload is rolled back, how timers are scheduled, and how the seccomp
filter for launched apps is generated. It proves properties of every input, every run and every operating system that
keeps the assumptions below.

The operating system is an oracle (`Machine.Os`): arbitrary functions of how many questions were asked before, giving
spawn outcomes, clock readings, whether a stopped process ended up reaped, and which of several table entries an
unordered iteration meets first. `Os.Valid` assumes only that a new process never gets the pid of a child that was not
reaped, and that iteration meets real entries; `Os.MonotoneClock` that the clock does not go back. What the outside
world does to the event loop (requests, results of `waitpid`, datagrams) is an arbitrary list of `EventLoop.Input`.

How the files build on each other:

- `Config`, `Targets`, `Machine`: definitions, configurations, targets, the operating system.
- `Graphs`, `Folding`, `Ordering`, `BootTheorems`: the two ordering functions, the boot loop, and what exactly starts.
- `Supervision`, `Reconcile`, `Backoff`: the supervisor's transitions as functions on values and what they do: reload
  and the restart budget.
- `Timers`, `TimerRates`, `Ticks`: the scheduler.
- `EventLoop`, `Invariants`, `Runs`, `Conformance`, `Rollback`, `Deviations`, `BootReload`, `Guarantees`, `Shells`,
  `Witnesses`: one turn of the loop, what every operation keeps, and theorems over whole runs.
- `Entries`, `Watchdogs`, `Effects`: what every operation and every turn does to the tracked services and the timers,
  said with configurations, exits and datagrams only.
- `Supervisor` (module `Supervisors`) and `Daemon` (module `Daemons`): the objects and loops of the source, each method
  proved to compute the transition the theorems are about.
- `Seccomp`: the filter generator and an interpreter for its output.

`Supervised` and `Sched` carry history variables that no operation reads: `chain` (every automatic restart since the
service was last started afresh), `heard` (when this very instance last sent `WATCHDOG=1`), `born` (which question to the
system started it), `starts` and `finishes` (the runs of each timer). `Entries.ChainIsRestarts` and `Watchdogs.RunHeard`
prove the first two to be what the exits and datagrams of a run say. `Boot` records which spawns were attempted and
refused.

## What the proofs found

- The gap documented at `src/rollback.rs:22-29` (a rollback undoing an isolate) cannot happen while names are unique and
  no rescue shell is started: after an isolate no service the watch touched is tracked any more, so the rollback cannot
  trigger (`Conformance.RunConforms`). A rescue shell answers to the name `shell`, which a reload may have touched, and
  `Witnesses.IsolateUndone` is a run in which that undoes an isolate. `Deviations.RollbackConformsExactly` says, of the
  state before it, when a rollback leaves a conforming one, and `Deviations.RunConformsExactly` says exactly which runs
  conform throughout.
- INTEGRATION.md (lines 173-178) says a failed reload reverts as a whole. The configuration and the services come back;
  the timer definitions do not (`src/main.rs:147` replaces them, `src/rollback.rs:87-116` has no access to them).
  `Rollback.RollbackRestores` states exactly what is restored, `Witnesses.TimersSurviveRollback` is a run.
- "Leaves unchanged ones running untouched" (`src/supervisor.rs:356-358`) holds for a reload of the booted configuration
  exactly when folding changed nothing, since boot stores folded definitions and a reload compares unfolded ones
  (`BootReload.ReloadOfBoot`); `Witnesses.ReloadRestartsUnchanged` is a run in which it restarts a service.
- A failure after the ten seconds still rolls back while the watch is held: `check` looks at failures before the
  deadline. `Rollback.RollbackTurn` has no premise about the clock, `Witnesses.LateRollback` is a run, and
  `Rollback.WatchHeldExactly` with `Rollback.HeldPastDeadline` says when a watch outlives its deadline.
- "Restarts ones whose definition changed" (`src/supervisor.rs:357`) fails beside a rescue shell: a reload takes the
  first entry it meets under a name, so where a service called `shell` is configured the rescue shell can be replaced in
  its place and the service keeps its old definition. `Witnesses.ChangedShellStays` is a run,
  `Shells.ReloadConformsExactly` says exactly when a reload leaves nothing behind, and `Shells.RunConformsStrictly` that,
  under the premises of `Conformance.RunConforms`, nothing is left behind if every configuration of a run defines that
  name alike or not at all.
- Pings are recorded by name too, so one of a rescue shell counts for a configured `shell`
  (`Witnesses.SilentShellSpared`); where no configuration has that name `Shells.WatchdogsExactForAll` holds for every pid.

## Model

| member | source | states |
|---|---|---|
| `Config.MergeServices` | src/config.rs:189-201 | the loop appends the unit files whose names are new |
| `Config.MergeKeepsFirstSeen` | src/config.rs:185-201 | inline definitions stay as a prefix, every name keeps the definition seen first, and the result is uniquely named exactly when the inline part was |
| `Config.MergeInOrder` | src/config.rs:189-201 | unit files are taken in listed order; one is left out exactly if an inline definition or an earlier unit file has its name |
| `Targets.ServicesInExact` | src/targets.rs:29-33 | the filter keeps exactly the definitions of the target, each behind exactly those of the target listed before it, and unique names |
| `Folding.FoldAfter` | src/supervisor.rs:487-515 | the in-place folding of requires, wants and before computes `EffectiveAfter`, duplicates included |
| `Folding.FoldingExact` | src/supervisor.rs:479-515 | with unique names the folded list is exactly the union of after, requires, wants and the services naming this one in before; after stays a prefix, additions come once, no other field changes |
| `Folding.FoldingOrdered` | src/supervisor.rs:487-515 | the added names come in order: what is required and wanted, as listed there, then the services naming this one in before, as configured |
| `Folding.FoldingIdempotent` | src/supervisor.rs:487-515 | folding twice is folding once, on every list |
| `Ordering.TopologicalOrder` | src/supervisor.rs:522-557 | the Kahn loop with its cycle branch computes `Ordered` |
| `Ordering.OrderTheorem` | src/supervisor.rs:517-557 | the result is a permutation; the placed part lists dependencies first and holds exactly the services from which no path reaches a cycle; the rest keep listed order; there is a rest exactly when the graph has a cycle |
| `Ordering.OrderFirstReady` | src/supervisor.rs:528-540 | a service is placed only when everything listed before it was placed or still waits for a configured dependency |
| `Ordering.OrderIdentity` | src/supervisor.rs:528-540 | a list already in dependency order is returned unchanged |
| `Ordering.OrderIdempotent` | src/supervisor.rs:528-554 | ordering twice is ordering once, cycles included |
| `BootTheorems.RequirementsHold` | src/supervisor.rs:94-118 | on every graph a tracked service has all its configured requirements tracked, and no service whose requires lead into a cycle is ever spawned |
| `BootTheorems.BootExact` | src/supervisor.rs:89-119 | on every graph and whatever is refused, exactly the services with no requires path to a failed or out-of-order one are recorded as running; outside the rescue shell's name those are the tracked ones, and all but rescue shells run a folded definition |
| `BootTheorems.OutOfOrderExact` | src/supervisor.rs:89-118 | the computed order puts a service before something it requires exactly if, in the configuration, that requirement leads into an ordering cycle and is not listed earlier |
| `BootTheorems.AcyclicInOrder` | src/supervisor.rs:89-118 | without an ordering cycle nothing is out of order |
| `BootTheorems.BootRefusing` | src/supervisor.rs:89-119 | on every graph, where the same services are always refused, exactly the services run that have no requires path to a refused or out-of-order one |
| `BootTheorems.BootAcyclic` | src/supervisor.rs:80-119 | without an ordering cycle exactly the services with no requires path to one whose spawn failed run, however refusals vary; where the same services are always refused those are the ones to reach, and if none is nothing is skipped |
| `Entries.BootFresh` | src/supervisor.rs:111-116 | every booted service starts with an empty restart history, no ping recorded and the time of its own start |
| `Entries.BootStartsInOrder` | src/supervisor.rs:94-118 | services start in the computed order |
| `Entries.BootRescues` | src/supervisor.rs:278-305 | a critical service refused at boot leaves a rescue shell running, where shells start |
| `Supervision.DefsEqualIsEquality` | src/supervisor.rs:583-604 | between equal names `defs_equal` is equality of definitions |
| `Supervision.ShutdownAccountsForAll` | src/supervisor.rs:418-456 | for every sequence of wait results each tracked pid is collected or killed, never both, and every tracked name is swept and forgotten |
| `Supervision.ShutdownExact` | src/supervisor.rs:424-456 | a tracked pid is killed exactly if its exit is not among the wait results before one saying there are no children; what is left are the killed, unchanged; every tracked name is swept and forgotten, no other |
| `Reconcile.ReloadConforms` | src/supervisor.rs:366-416 | whatever is spawned or refused, every entry carries a definition of the new list, under one pid, except entries called `shell` where a rescue shell may start |
| `Reconcile.ReloadTouches` | src/supervisor.rs:366-416 | whatever is refused, unless a rescue shell shares a given name: equal definitions keep their entries, the names of the others are returned in listed order, every other entry has an empty history, and only given definitions and rescue shells are left |
| `Reconcile.ReloadExact` | src/supervisor.rs:356-416 | with unique names and successful spawns the tracked definitions are exactly the given ones, equal ones keep pid, start time and history, the others start with an empty history and are returned in listed order |
| `Reconcile.ReloadTwice` | src/supervisor.rs:366-416 | a second reload of the same definitions touches nothing |
| `Reconcile.ReloadHolds` | src/supervisor.rs:366-416 | under refusals that depend on the name, a definition of the list runs after a reload exactly if it ran before or is not refused |
| `Entries.ReloadStartsInOrder` | src/supervisor.rs:386-405 | what a reload starts it starts in listed order |
| `Effects.ReloadForgets` | src/supervisor.rs:366-416 | a reload forgets what services reported for exactly the names it stops, restarts or starts |
| `BootReload.ReloadOfBoot` | src/supervisor.rs:356-416 | in every run from boot without reload or isolate, restarts included, while all booted services are tracked, and whatever is refused: reloading the booted configuration touches exactly those whose after list folding enlarged and leaves the others alone, so it touches nothing exactly when folding changed nothing; no booted service may share its name with a rescue shell |
| `Backoff.PrunedIsEnough` | src/supervisor.rs:336-342 | the pruned history yields what the whole chain of restarts would |
| `Backoff.RestartKeepsBudget` | src/supervisor.rs:336-350 | an allowed restart keeps every ten-second interval of the chain within five restarts |
| `Backoff.GaveUpExactly` | src/supervisor.rs:336-350 | giving up happens exactly when the restart would be the sixth in the window ending now |
| `Backoff.ExitExactly` | src/supervisor.rs:308-354 | for every exit of a tracked pid: which outcome, whether the service comes back, under the spawned pid and with its chain of restarts extended, and that no other entry changes |
| `Entries.SpawnExact` | src/supervisor.rs:174-306 | one spawn, case by case: tracked as asked for, or a rescue shell in the place of a critical service that is refused, or nothing; reports under the name are forgotten |
| `Entries.DispatchOrigin` | src/supervisor.rs:308-354 | after a turn every entry was there before, is the exited service restarted with this restart added, or was brought in afresh by a rollback |
| `Timers.TickNoOverlap` | src/timers.rs:157-188 | a tick starts no timer still running and none twice; running is exactly the pending names, one pid each |
| `Timers.ReapNoOverlap` | src/timers.rs:223-239 | an exit is claimed exactly when its pid is pending, and ends exactly that run |
| `TimerRates.TickPaced` | src/timers.rs:142-188 | a tick keeps the first delay and the gap between a finish and the next start |
| `TimerRates.ReapPaced` | src/timers.rs:228-239 | collecting a run keeps them too |
| `TimerRates.RateBound` | src/timers.rs:142-155 | by time T at most 1 + (T - boot - delay) / interval starts, and at most one without an interval |
| `TimerRates.TickStartsDue` | src/timers.rs:160-188 | after a tick (spawns succeeding) a timer runs exactly if it already ran, or its wait is over and its service is configured |
| `Ticks.TickExact` | src/timers.rs:160-188 | with one-shots starting, a tick starts once each exactly the timers that are idle, configured and whose wait is over, each by spawning the first service of its name, and fixes the boot instant |
| `Ticks.ReapExact` | src/timers.rs:228-239 | collecting a run records the reading as its finish and touches no other timer |
| `Invariants.SpawnKeepsInv` | src/supervisor.rs:174-306 | spawning under a free name keeps pid ownership, unshared names, restart budgets and ping attribution |
| `Invariants.ExitKeepsInv` | src/supervisor.rs:308-354 | handling an exit keeps them, and only definitions that ran go on running |
| `Invariants.ReloadKeepsInv` | src/supervisor.rs:366-416 | a reload keeps them |
| `Invariants.ReceiveAllKeepsInv` | src/notify.rs:52-62 | datagrams keep them, attribution included if they come from live instances |
| `Watchdogs.ReceiveExact` | src/notify.rs:52-62 | a WATCHDOG=1 records the reading under the name of its socket, and as heard from the sending instance, and nothing else |
| `Watchdogs.ReadyExact` | src/notify.rs:52-56 | a name is ready if it was or a READY=1 on its socket was handled |
| `Invariants.BootEstablishesInv` | src/supervisor.rs:89-119 | boot establishes them, with folded definitions |
| `Runs.TurnKeepsInv` | src/main.rs:123-255 | one turn of the loop keeps the invariant of supervisor, timers and configurations |
| `Runs.BootedStarts` | src/main.rs:79-91 | the booted state satisfies it |
| `Runs.PidLayers` | src/main.rs:123-241 | at every loop head supervised and timer pids are unreaped children, the tables share none, no name but the rescue shell's has two pids, no timer overlaps itself |
| `Effects.BootedExact` | src/main.rs:79-91 | the loop is entered with nothing tracked but services of the default target, up to folding, and rescue shells; all of them, where they start and their ordering has no cycle |
| `Effects.IsolateExact` | src/main.rs:154-167 | an isolate to a target some service has makes it active and brings its services up: those running as defined stay, the others start afresh, nothing else runs; to any other target it changes nothing |
| `Effects.ReloadRequest` | src/rollback.rs:62-79 | a reload puts configuration and timers in force, brings up the active target and watches what it had to start, for ten seconds, with the configuration and target it found |
| `Effects.TurnRequests` | src/main.rs:136-167 | a turn carries out its requests, a reload first; nothing else touches services, configuration, target or watch before the wait result is handled |
| `Effects.TurnTicks` | src/main.rs:175 | a turn ticks the timers in force after its requests, once |
| `Effects.RunTicks` | src/main.rs:175 | in every run a turn that is no shutdown starts a timer once exactly if it is in force, idle, configured and its wait is over at its reading in that turn (one-shots starting) |
| `Effects.DispatchTimers` | src/main.rs:198-207 | the exit of a timer's run finishes it at the reading at which it is handled; no other wait result touches the timers |
| `Effects.DispatchExact` | src/main.rs:198-254 | without a rollback or a shutdown an exit restarts the service exactly if its policy asks for it, it is not the sixth restart in ten seconds and the system starts it; no other entry changes, nor configuration or target |
| `Effects.RollbackExact` | src/rollback.rs:87-109 | a rollback takes the dead service out and brings up the remembered configuration in the watched target, leaving alone what runs as remembered |
| `Effects.StopExact` | src/main.rs:123-135 | a turn that ends the loop leaves of what was tracked exactly what the grace period did not collect, nothing of it recorded as ready |
| `Effects.TurnExact` | src/main.rs:123-255 | these together for one turn |
| `Conformance.RunConforms` | src/main.rs:121-247 | in every run every tracked service carries a definition of the active target of the configuration in force, up to boot-time folding, if no rescue shell starts, or no isolate to another target is accepted while a watch is held; entries called `shell` are exempt where a rescue shell may start |
| `Conformance.BootedConforms` | src/main.rs:79-91 | the booted state conforms |
| `Shells.ReloadStrays` | src/supervisor.rs:386-405 | of the entries called `shell` with a definition no longer given, a reload that gives the name leaves exactly those it did not meet; any other reload leaves none |
| `Shells.ReloadConformsExactly` | src/supervisor.rs:356-416 | a reload ends with nothing but given definitions and rescue shells exactly if it gives no service called `shell` or met the only stray of that name |
| `Shells.RunConformsStrictly` | src/main.rs:121-247 | the same with nothing exempt but rescue shells themselves, if every configuration of the run that has a service called `shell` has the same one |
| `Shells.BootedShells` | src/main.rs:79-91 | the booted state has no stray |
| `Deviations.RollbackConformsExactly` | src/rollback.rs:87-109 | a rollback leaves a conforming state if the watched target is active; otherwise exactly if everything it would bring back is refused and does not run already |
| `Deviations.TurnConformsExactly` | src/main.rs:123-255 | the same for one turn from a conforming state, decided in the state in which the wait result is dispatched |
| `Deviations.RunConformsExactly` | src/rollback.rs:19-29 | a run conforms at every loop head exactly if no turn rolls back to a target no longer active and brings something back (whether a definition is refused depending on the definition) |
| `Rollback.RollbackTurn` | src/rollback.rs:87-109 | a touched service dying for good ends that turn with the remembered configuration, no watch, no shutdown, the target in force and, spawns succeeding and no rescue shell sharing a name, exactly the remembered services, whatever the clock says |
| `Rollback.ReloadIsWatched` | src/rollback.rs:62-79 | a reload watches exactly the services that did not run unchanged before, for ten seconds, whatever is refused; spawns succeeding, exactly the new services of the target run |
| `Rollback.WatchLasts` | src/rollback.rs:87-116 | handling a wait result ends a held watch exactly if a touched service dies for good or a status is handled at or past the deadline; the configuration changes exactly in the first case |
| `Rollback.WatchHeldExactly` | src/rollback.rs:87-116 | in every run the watch of the latest reload is held exactly if no turn since, its own included, ended it |
| `Rollback.HeldPastDeadline` | src/main.rs:249-252 | in every run a watch still held past its deadline means no turn since then got a status from waitpid |
| `Rollback.StopsExactly` | src/main.rs:130-135 | a turn stops the loop exactly on a shutdown request or the exit of a critical service that no held watch touched |
| `Rollback.WatchRemembers` | src/main.rs:147-150 | a held watch remembers configuration and target in force just before the latest reload |
| `Rollback.RollbackRestores` | src/rollback.rs:87-116 | over whole runs a rollback restores that configuration and its services, but leaves the timers of the failed reload and the target in force |
| `Guarantees.RestartBudget` | src/supervisor.rs:336-350 | in every run each chain of automatic restarts has at most five in every ten-second interval; a reload that restarts a service begins a new chain |
| `Guarantees.GivesUpExactly` | src/supervisor.rs:341-350 | in every run giving up means exactly that the sixth restart of the chain in ten seconds would be due |
| `Entries.ChainIsRestarts` | src/supervisor.rs:308-354 | in every run from boot the recorded chain of an instance is the list of restarts that the exits of the run gave it |
| `Entries.GivesUpByExits` | src/supervisor.rs:336-350 | the same with the restarts counted from the exits of the run |
| `Guarantees.WatchdogsExact` | src/supervisor.rs:155-172 | with datagrams from live instances a turn kills exactly the services whose own silence, as recorded, exceeds their timeout, but for a watched service called `shell` where rescue shells may start |
| `Shells.WatchdogsExactForAll` | src/supervisor.rs:155-172 | the same for every tracked pid in runs whose configurations have no service called `shell` |
| `Watchdogs.RunHeard` | src/notify.rs:58-62 | in every run from boot what is recorded as heard of an instance is the latest WATCHDOG=1 of its pid since it was started |
| `Watchdogs.WatchdogsByPings` | src/supervisor.rs:155-172 | in every run from boot a turn kills exactly the services whose pid sent its latest WATCHDOG=1 since its start, or was started, longer ago than their timeout |
| `Guarantees.RunPace` | src/timers.rs:142-188 | in every run a timer's first start respects its first delay and every later one the interval after the previous finish |
| `Guarantees.TimerRate` | src/timers.rs:13-27 | the rate bound over every run in which the timer keeps its definition |
| `Witnesses.IsolateUndone` | src/rollback.rs:22-29 | a run from boot in which a rollback undoes an isolate |
| `Witnesses.TimersSurviveRollback` | src/main.rs:147-150 | a run from boot in which the timers of a rolled-back reload stay |
| `Witnesses.ReloadRestartsUnchanged` | src/supervisor.rs:356-358 | a run from boot in which reloading the booted configuration restarts a service |
| `Witnesses.LateRollback` | src/rollback.rs:93-113 | a run from boot with a rollback after the deadline of the watch |
| `Witnesses.ChangedShellStays` | src/supervisor.rs:386-405 | a run from boot in which a reload changes a service called `shell` and it keeps running unchanged |
| `Witnesses.SilentShellSpared` | src/supervisor.rs:155-172 | a run from boot in which a service called `shell` that never pinged is not killed, for a ping of a rescue shell |
| `EventLoop.TraceOfRun` | src/main.rs:123-255 | the states the loop computes form a run |
| `Supervisors.ReadyState.MarkReady` | src/notify.rs:52-56 | records readiness of a name |
| `Supervisors.ReadyState.MarkPing` | src/notify.rs:58-62 | records the time of a ping of a name |
| `Supervisors.ReadyState.LastPing` | src/notify.rs:48-50 | the latest recorded ping |
| `Supervisors.ReadyState.Forget` | src/notify.rs:67-74 | drops both records of a name and nothing else |
| `Supervisors.Supervisor.SpawnWithHistory` | src/supervisor.rs:174-306 | refines the spawn transition, the rescue shell included |
| `Supervisors.Supervisor.SpawnAll` | src/supervisor.rs:89-119 | the boot loop refines the boot transition, histories included (`Entries.BootFresh`) |
| `Supervisors.Supervisor.HandleExit` | src/supervisor.rs:308-354 | refines the exit transition |
| `Supervisors.Supervisor.StopMany` | src/supervisor.rs:369-384 | stopping one by one, in any order, gives the same state |
| `Supervisors.Supervisor.ReloadServices` | src/supervisor.rs:366-416 | the two loops refine the reload transition |
| `Supervisors.Supervisor.ExpiredWatchdogs` | src/supervisor.rs:155-172 | returns exactly the pids past their deadline |
| `Supervisors.Supervisor.ShutdownAll` | src/supervisor.rs:424-456 | refines the shutdown transition |
| `Supervisors.Retain` | src/supervisor.rs:339 | keeps exactly the restart times inside the window, in order |
| `Daemons.Scheduler.Tick` | src/timers.rs:160-188 | refines the tick transition |
| `Daemons.Scheduler.Reap` | src/timers.rs:228-239 | refines the reap transition |
| `Daemons.Daemon.Reload` | src/rollback.rs:62-79 | refines beginning a watched reload |
| `Daemons.Daemon.Isolate` | src/main.rs:154-167 | refines an isolate, ignored for a target no service has |
| `Daemons.Daemon.CheckWatch` | src/rollback.rs:87-116 | refines judging the watch |
| `Daemons.Daemon.Dispatch` | src/main.rs:198-254 | refines handling a wait result |
| `Daemons.Daemon.Turn` | src/main.rs:123-255 | one iteration, and the pids its watchdog check kills |
| `Daemons.Daemon.RunEventLoop` | src/main.rs:114-256 | the loop computes `Run` |
| `Daemons.BootAndRun` | src/main.rs:79-91 | boot followed by the loop computes the run from boot |
| `Seccomp.BuildProgram` | src/seccomp.rs:151-171 | the pushing loop builds `Program` |
| `Seccomp.FilterMeaning` | src/seccomp.rs:146-171 | for every deny-list and call: foreign architectures are killed, listed numbers get EPERM, the rest is allowed, no execution faults |
| `Seccomp.JumpsInRange` | src/seccomp.rs:154-169 | both branches of every jump stay inside, and the last instruction returns |
| `Seccomp.LengthFits` | src/seccomp.rs:186-191 | the length is 2n + 5 and survives the cast to u16 exactly for at most 32765 entries |
| `Seccomp.InstalledFilter` | src/seccomp.rs:103-131 | the installed list is denied and fits |

## Left out

- On-demand apps (`src/apps.rs`): launched from the IPC thread; an exit of an app is, for this model, the exit of an
  unknown child.
- The control socket (`src/ipc.rs`, `src/bin/mitosctl.rs`): an isolate or reload request is an input of a turn.
- Text parsers (`src/config.rs`, `src/units.rs`, `src/timers.rs`): configurations and timer lists are values; unique
  names, which the parsers do not enforce for inline services, are a premise of the run theorems.
- `targets::list` (`src/targets.rs:37-46`): the loop only asks whether a target is in it, which is `HasTarget`; sorting
  the published list is not modelled.
- Waiting inside calls (`wait_for_ready`, the polling of `stop_one`, sleeps): they advance the oracle and decide whether
  a stopped process was reaped; ready reports arriving meanwhile are not modelled, and nothing is claimed about
  `after_ready`.
- Listener threads: datagrams are handled between the wait and the watchdog check of a turn, not at other points.
- Cgroups, users, sandboxing, logging, host name, the shutdown acknowledgement and the signals themselves: only the
  sweeps and kills of a shutdown and the kills of the watchdog check are recorded.
- Supervisors.ReadyState.LastPing: a poisoned lock, which makes the source answer as if nothing was recorded, is not
  modelled.
- Deviations.RunConformsExactly: exact where the system's answer to a definition does not change over time; for other
  systems only the sufficient conditions of `Conformance.RunConforms` are proved.
