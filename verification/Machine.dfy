/** The operating system as the supervisor sees it: an oracle whose answers are arbitrary functions of how many
    questions were asked before. Every theorem quantifies over all such oracles. */
module Machine {
  import opened Config

  type Pid = nat

  /** Outcome of spawning a definition; `shell` is what spawning `/bin/sh` in its place would give. */
  datatype SpawnAnswer = Started(pid: Pid) | Refused(shell: Option<Pid>)

  datatype Os = Os(
    /** the answer to spawn request number `t`, given the children not yet reaped */
    spawn: (nat, ServiceDef, set<Pid>) -> SpawnAnswer,
    clock: nat -> Instant,
    /** whether stopping a process ended with its exit status being collected */
    reaped: (nat, Pid) -> bool,
    /** which of several table entries an unordered iteration meets first */
    pick: (nat, set<Pid>) -> Pid)
  {
    /** A new process never gets the pid of a child that was not reaped, and iteration meets real entries. */
    ghost predicate Valid() {
      && (forall t, d, kids :: Fresh(spawn(t, d, kids), kids))
      && (forall t, s :: s != {} ==> pick(t, s) in s)
    }

    ghost predicate MonotoneClock() {
      forall i, j :: i <= j ==> clock(i) <= clock(j)
    }

    /** No rescue shell ever stands in for a critical service. */
    ghost predicate NoFallback() {
      forall t, d, kids :: NoShell(d, spawn(t, d, kids))
    }

    ghost predicate AlwaysStarts(defs: seq<ServiceDef>) {
      forall t, d, kids :: d in defs ==> spawn(t, d, kids).Started?
    }
  }

  predicate NoShell(d: ServiceDef, a: SpawnAnswer) {
    d.critical && a.Refused? ==> a.shell.None?
  }

  predicate Fresh(a: SpawnAnswer, kids: set<Pid>) {
    match a
    case Started(pid) => pid !in kids
    case Refused(shell) => shell.Some? ==> shell.value !in kids
  }

  /** How many questions were asked, and which children were started and not reaped. */
  datatype Kernel = Kernel(t: nat, children: set<Pid>) {
    function Advance(n: nat): Kernel { this.(t := t + n) }
    function Born(pid: Pid): Kernel { Kernel(t + 1, children + {pid}) }
  }

  /** What `waitpid` reports. */
  datatype WaitStatus = Exited(pid: Pid, code: int) | Signaled(pid: Pid) | StillAlive | NotAnExit

  datatype WaitResult = Status(status: WaitStatus) | Interrupted | NoChildren | WaitFailed

  predicate IsExit(status: WaitStatus) {
    status.Exited? || status.Signaled?
  }
}
