/** The timer scheduler (`src/timers.rs`). */
module Timers {
  import opened Config
  import opened Machine

  datatype TimerDef = TimerDef(name: string, onBoot: Option<Duration>, onActive: Option<Duration>)

  /** `boot` is set by whichever call comes first. `starts` and `finishes` are history variables that no
      operation reads: when each timer's runs started and finished. */
  datatype Sched = Sched(
    boot: Option<Instant>,
    lastFinished: map<string, Instant>,
    running: set<string>,
    pending: map<Pid, string>,
    starts: map<string, seq<Instant>>,
    finishes: map<string, seq<Instant>>)

  const IDLE := Sched(None, map[], {}, map[], map[], map[])

  function At(history: map<string, seq<Instant>>, name: string): seq<Instant> {
    if name in history then history[name] else []
  }

  datatype Clocked = Clocked(sched: Sched, kernel: Kernel)

  /** `state()`: the first call fixes the boot instant. */
  function Touch(os: Os, c: Clocked): Clocked {
    if c.sched.boot.Some? then c
    else Clocked(c.sched.(boot := Some(os.clock(c.kernel.t))), c.kernel.Advance(1))
  }

  predicate IsDue(t: TimerDef, s: Sched, now: Instant)
    requires s.boot.Some?
  {
    if t.name !in s.lastFinished then
      match (t.onBoot, t.onActive)
      case (Some(d), _) => now >= s.boot.value + d
      case (None, Some(d)) => now >= s.boot.value + d
      case (None, None) => false
    else
      match t.onActive
      case Some(d) => now >= s.lastFinished[t.name] + d
      case None => false
  }

  /** The first `n` timers that are idle and due, each judged at its own reading of the clock. */
  function Due(os: Os, k: Kernel, s: Sched, timers: seq<TimerDef>, n: nat): seq<string>
    requires n <= |timers| && s.boot.Some?
  {
    if n == 0 then []
    else
      var t := timers[n - 1];
      Due(os, k, s, timers, n - 1) +
      if t.name !in s.running && IsDue(t, s, os.clock(k.t + n - 1)) then [t.name] else []
  }

  /** Starts one due timer if its service is configured and the system lets it start. */
  function StartOne(os: Os, c: Clocked, name: string, services: seq<ServiceDef>): Clocked {
    var def := Lookup(services, name);
    if def.None? then c
    else
      match os.spawn(c.kernel.t, def.value, c.kernel.children)
      case Started(pid) =>
        Clocked(
          c.sched.(running := c.sched.running + {name},
                   pending := c.sched.pending[pid := name],
                   starts := c.sched.starts[name := At(c.sched.starts, name) + [os.clock(c.kernel.t)]]),
          c.kernel.Born(pid))
      case Refused(_) => Clocked(c.sched, c.kernel.Advance(1))
  }

  function StartAll(os: Os, c: Clocked, names: seq<string>, services: seq<ServiceDef>, n: nat): Clocked
    requires n <= |names|
  {
    if n == 0 then c else StartOne(os, StartAll(os, c, names, services, n - 1), names[n - 1], services)
  }

  function Tick(os: Os, c: Clocked, timers: seq<TimerDef>, services: seq<ServiceDef>): Clocked {
    if timers == [] then c
    else
      var c1 := Touch(os, c);
      var due := Due(os, c1.kernel, c1.sched, timers, |timers|);
      StartAll(os, Clocked(c1.sched, c1.kernel.Advance(|timers|)), due, services, |due|)
  }

  function Reap(os: Os, c: Clocked, pid: Pid): (Clocked, bool) {
    var c1 := Touch(os, c);
    if pid !in c1.sched.pending then (c1, false)
    else
      var name, now := c1.sched.pending[pid], os.clock(c1.kernel.t);
      (Clocked(
         c1.sched.(pending := c1.sched.pending - {pid},
                   running := c1.sched.running - {name},
                   lastFinished := c1.sched.lastFinished[name := now],
                   finishes := c1.sched.finishes[name := At(c1.sched.finishes, name) + [now]]),
         c1.kernel.Advance(1)), true)
  }

  // ---------------------------------------------------------------- no overlap

  ghost predicate UniqueTimers(timers: seq<TimerDef>) {
    forall i, j :: 0 <= i < j < |timers| ==> timers[i].name != timers[j].name
  }

  function Busy(pending: map<Pid, string>): set<string> {
    set p | p in pending :: pending[p]
  }

  /** `running` is exactly the set of pending names, each name has one pid, and every pending pid is a child
      that was not reaped. */
  ghost predicate NoOverlap(c: Clocked) {
    && c.sched.running == Busy(c.sched.pending)
    && (forall p, q :: p in c.sched.pending && q in c.sched.pending && c.sched.pending[p] == c.sched.pending[q] ==>
          p == q)
    && c.sched.pending.Keys <= c.kernel.children
    && (c.sched.boot.None? ==> c.sched == IDLE)
  }

  ghost predicate DueAmong(os: Os, k: Kernel, s: Sched, timers: seq<TimerDef>, n: nat, x: string)
    requires n <= |timers| && s.boot.Some?
  {
    exists j :: 0 <= j < n && timers[j].name == x && x !in s.running && IsDue(timers[j], s, os.clock(k.t + j))
  }

  ghost predicate DueList(os: Os, k: Kernel, s: Sched, timers: seq<TimerDef>, n: nat, due: seq<string>)
    requires n <= |timers| && s.boot.Some?
  {
    && (forall i :: 0 <= i < |due| ==> DueAmong(os, k, s, timers, n, due[i]))
    && (forall i, j :: 0 <= i < j < |due| ==> due[i] != due[j])
  }

  lemma {:induction false} DueExact(os: Os, k: Kernel, s: Sched, timers: seq<TimerDef>, n: nat)
    requires n <= |timers| && s.boot.Some? && UniqueTimers(timers)
    ensures DueList(os, k, s, timers, n, Due(os, k, s, timers, n))
  {
    if n == 0 {
    } else {
      DueExact(os, k, s, timers, n - 1);
      DueStep(os, k, s, timers, n, Due(os, k, s, timers, n - 1));
    }
  }

  lemma DueStep(os: Os, k: Kernel, s: Sched, timers: seq<TimerDef>, n: nat, init: seq<string>)
    requires 0 < n <= |timers| && s.boot.Some? && UniqueTimers(timers) && DueList(os, k, s, timers, n - 1, init)
    ensures DueList(os, k, s, timers, n, init)
    ensures var t := timers[n - 1];
            t.name !in s.running && IsDue(t, s, os.clock(k.t + n - 1)) ==>
              DueList(os, k, s, timers, n, init + [t.name])
  {
    forall i | 0 <= i < |init| ensures DueAmong(os, k, s, timers, n, init[i]) && init[i] != timers[n - 1].name {
      assert DueAmong(os, k, s, timers, n - 1, init[i]);
    }
    var t := timers[n - 1];
    if t.name !in s.running && IsDue(t, s, os.clock(k.t + n - 1)) {
      assert k.t + n - 1 == k.t + (n - 1);
      assert DueAmong(os, k, s, timers, n, t.name);
    }
  }

  lemma BusyAdd(pending: map<Pid, string>, pid: Pid, name: string)
    requires pid !in pending
    ensures Busy(pending[pid := name]) == Busy(pending) + {name}
  {
    var grown := pending[pid := name];
    forall p | p in pending ensures pending[p] in Busy(grown) {
      assert grown[p] == pending[p];
    }
    assert grown[pid] == name;
  }

  lemma BusyRemove(pending: map<Pid, string>, pid: Pid)
    requires pid in pending
    requires forall p :: p in pending && pending[p] == pending[pid] ==> p == pid
    ensures Busy(pending - {pid}) == Busy(pending) - {pending[pid]}
  {
    forall p | p in pending && p != pid ensures pending[p] in Busy(pending - {pid}) {
      assert (pending - {pid})[p] == pending[p];
    }
  }

  lemma StartOneNoOverlap(os: Os, c: Clocked, name: string, services: seq<ServiceDef>)
    requires os.Valid() && NoOverlap(c) && c.sched.boot.Some? && name !in c.sched.running
    ensures var c' := StartOne(os, c, name, services);
            && NoOverlap(c') && c'.sched.boot == c.sched.boot
            && c.sched.running <= c'.sched.running <= c.sched.running + {name}
            && Grows(c.kernel, c.sched.pending.Keys, c'.kernel, c'.sched.pending.Keys)
  {
    var def := Lookup(services, name);
    if def.Some? {
      var answer := os.spawn(c.kernel.t, def.value, c.kernel.children);
      assert Fresh(answer, c.kernel.children);
      if answer.Started? {
        var c' := StartOne(os, c, name, services);
        assert c'.sched.pending[answer.pid] == name;
        BusyAdd(c.sched.pending, answer.pid, name);
      }
    }
  }

  /** Children only grow, time moves on, and pids that are new in the table are new children. */
  ghost predicate Grows(k: Kernel, pids: set<Pid>, k': Kernel, pids': set<Pid>) {
    && k.t <= k'.t
    && k.children <= k'.children
    && pids' - pids <= k'.children - k.children
  }

  lemma {:induction false} StartAllNoOverlap(os: Os, c: Clocked, names: seq<string>, services: seq<ServiceDef>, n: nat)
    requires os.Valid() && NoOverlap(c) && c.sched.boot.Some? && n <= |names|
    requires forall i :: 0 <= i < |names| ==> names[i] !in c.sched.running
    requires forall i, j :: 0 <= i < j < |names| ==> names[i] != names[j]
    ensures var c' := StartAll(os, c, names, services, n);
            && NoOverlap(c') && c'.sched.boot == c.sched.boot
            && (forall x :: x in c'.sched.running ==> x in c.sched.running || x in names[..n])
            && Grows(c.kernel, c.sched.pending.Keys, c'.kernel, c'.sched.pending.Keys)
  {
    if n == 0 {
    } else {
      StartAllNoOverlap(os, c, names, services, n - 1);
      assert names[n - 1] !in names[..n - 1];
      assert names[..n] == names[..n - 1] + [names[n - 1]];
      StartOneNoOverlap(os, StartAll(os, c, names, services, n - 1), names[n - 1], services);
    }
  }

  /** A tick starts no timer that is still running, nor one timer twice. */
  lemma TickNoOverlap(os: Os, c: Clocked, timers: seq<TimerDef>, services: seq<ServiceDef>)
    requires os.Valid() && NoOverlap(c) && UniqueTimers(timers)
    ensures var c' := Tick(os, c, timers, services);
            NoOverlap(c') && Grows(c.kernel, c.sched.pending.Keys, c'.kernel, c'.sched.pending.Keys)
  {
    if timers != [] {
      var c1 := Touch(os, c);
      DueExact(os, c1.kernel, c1.sched, timers, |timers|);
      var due := Due(os, c1.kernel, c1.sched, timers, |timers|);
      forall i | 0 <= i < |due| ensures due[i] !in c1.sched.running {
        assert DueAmong(os, c1.kernel, c1.sched, timers, |timers|, due[i]);
      }
      StartAllNoOverlap(os, Clocked(c1.sched, c1.kernel.Advance(|timers|)), due, services, |due|);
    }
  }

  /** Collecting an exit ends exactly that run; a pid that is no timer's changes nothing but the boot instant. */
  lemma ReapNoOverlap(os: Os, c: Clocked, pid: Pid)
    requires NoOverlap(c.(kernel := c.kernel.(children := c.kernel.children + {pid})))
    requires c.sched.boot.None? ==> c.sched == IDLE
    ensures var (c', handled) := Reap(os, c, pid);
            && (handled <==> pid in c.sched.pending)
            && c'.sched.pending == c.sched.pending - {pid}
            && c'.kernel.children == c.kernel.children && c.kernel.t <= c'.kernel.t
            && (pid !in c.kernel.children ==> NoOverlap(c'))
  {
    var c1 := Touch(os, c);
    var c' := Reap(os, c, pid).0;
    if pid in c.sched.pending {
      BusyRemove(c.sched.pending, pid);
    } else {
      assert c.sched.pending - {pid} == c.sched.pending;
    }
  }
}
