/** What a tick starts and what a reap finishes, exactly. */
module Ticks {
  import opened Config
  import opened Machine
  import opened Timers
  import opened TimerRates

  /** One more reading, taken in between. */
  ghost predicate OneMore(os: Os, before: seq<Instant>, after: seq<Instant>, from: nat, to: nat) {
    exists i :: from <= i < to && after == before + [os.clock(i)]
  }

  /** Timer `x` was started once in between, or not at all. */
  ghost predicate StartsLaw(os: Os, a: Clocked, b: Clocked, x: string, started: bool) {
    && (x in b.sched.running <==> x in a.sched.running || started)
    && (if started then OneMore(os, At(a.sched.starts, x), At(b.sched.starts, x), a.kernel.t, b.kernel.t)
        else At(b.sched.starts, x) == At(a.sched.starts, x))
  }

  /** Process `p` was started in between for the first service of the name that timer's run goes by. */
  ghost predicate SpawnedFor(os: Os, from: nat, to: nat, services: seq<ServiceDef>, p: Pid, name: string) {
    exists r, kids, d ::
      from <= r < to && d in services && Lookup(services, name) == Some(d) && d.name == name
      && os.spawn(r, d, kids) == Started(p)
  }

  ghost predicate OnlySpawned(os: Os, a: Clocked, b: Clocked, services: seq<ServiceDef>) {
    && a.kernel.t <= b.kernel.t
    && (forall p :: p in b.sched.pending ==>
          || (p in a.sched.pending && b.sched.pending[p] == a.sched.pending[p])
          || SpawnedFor(os, a.kernel.t, b.kernel.t, services, p, b.sched.pending[p]))
    && b.sched.lastFinished == a.sched.lastFinished && b.sched.finishes == a.sched.finishes
  }

  lemma {:induction false} LookupFirst(services: seq<ServiceDef>, name: string)
    ensures Lookup(services, name).Some? <==> name in Names(services)
    ensures Lookup(services, name).Some? ==>
              Lookup(services, name).value in services && Lookup(services, name).value.name == name
  {
    if services == [] {
    } else {
      LookupFirst(services[1..], name);
      assert services == [services[0]] + services[1..];
    }
  }

  lemma StartOneExact(os: Os, c: Clocked, name: string, services: seq<ServiceDef>, x: string)
    requires os.AlwaysStarts(services)
    ensures var c' := StartOne(os, c, name, services);
            && c'.sched.boot == c.sched.boot && OnlySpawned(os, c, c', services)
            && StartsLaw(os, c, c', x, x == name && name in Names(services))
  {
    LookupFirst(services, name);
    var def := Lookup(services, name);
    if def.Some? {
      var c' := StartOne(os, c, name, services);
      assert os.spawn(c.kernel.t, def.value, c.kernel.children).Started?;
      assert x == name ==> At(c'.sched.starts, x) == At(c.sched.starts, x) + [os.clock(c.kernel.t)];
      forall p | p in c'.sched.pending && !(p in c.sched.pending && c'.sched.pending[p] == c.sched.pending[p])
        ensures SpawnedFor(os, c.kernel.t, c'.kernel.t, services, p, c'.sched.pending[p])
      {
        assert os.spawn(c.kernel.t, def.value, c.kernel.children) == Started(p);
      }
    }
  }

  lemma SpawnedLater(os: Os, a: Clocked, b: Clocked, c: Clocked, services: seq<ServiceDef>)
    requires OnlySpawned(os, a, b, services) && OnlySpawned(os, b, c, services)
    ensures OnlySpawned(os, a, c, services)
  {
    forall p | p in c.sched.pending && !(p in a.sched.pending && c.sched.pending[p] == a.sched.pending[p])
      ensures SpawnedFor(os, a.kernel.t, c.kernel.t, services, p, c.sched.pending[p])
    {
      var name := c.sched.pending[p];
      if p in b.sched.pending && c.sched.pending[p] == b.sched.pending[p] {
        assert SpawnedFor(os, a.kernel.t, b.kernel.t, services, p, name);
      } else {
        assert SpawnedFor(os, b.kernel.t, c.kernel.t, services, p, name);
      }
    }
  }

  lemma StartsOnce(os: Os, a: Clocked, b: Clocked, c: Clocked, x: string, first: bool, second: bool)
    requires StartsLaw(os, a, b, x, first) && StartsLaw(os, b, c, x, second) && !(first && second)
    requires a.kernel.t <= b.kernel.t <= c.kernel.t
    ensures StartsLaw(os, a, c, x, first || second)
  {
  }

  lemma {:induction false} StartAllExact(
      os: Os, c: Clocked, names: seq<string>, services: seq<ServiceDef>, n: nat, x: string)
    requires n <= |names| && os.AlwaysStarts(services)
    requires forall i, j :: 0 <= i < j < |names| ==> names[i] != names[j]
    ensures var c' := StartAll(os, c, names, services, n);
            && c'.sched.boot == c.sched.boot && OnlySpawned(os, c, c', services)
            && StartsLaw(os, c, c', x, x in names[..n] && x in Names(services))
  {
    if n == 0 {
    } else {
      StartAllExact(os, c, names, services, n - 1, x);
      var mid, last := StartAll(os, c, names, services, n - 1), names[n - 1];
      StartOneExact(os, mid, last, services, x);
      var c' := StartAll(os, c, names, services, n);
      SpawnedLater(os, c, mid, c', services);
      assert names[..n] == names[..n - 1] + [last];
      StartsOnce(os, c, mid, c', x, x in names[..n - 1] && x in Names(services), x == last && last in Names(services));
    }
  }

  /** The instant the scheduler counts from: fixed by its first use. */
  function BootAt(os: Os, c: Clocked): Instant {
    if c.sched.boot.Some? then c.sched.boot.value else os.clock(c.kernel.t)
  }

  /** The reading at which timer number `j` of a tick is judged. */
  function JudgedBy(c: Clocked, j: nat): nat {
    c.kernel.t + (if c.sched.boot.Some? then 0 else 1) + j
  }

  /** Timer number `j` is due: idle, its service configured, its wait over at its reading. */
  ghost predicate StartsNow(os: Os, c: Clocked, timers: seq<TimerDef>, services: seq<ServiceDef>, j: nat)
    requires j < |timers|
  {
    && timers[j].name !in c.sched.running
    && timers[j].name in Names(services)
    && WaitOver(timers[j], c.sched.(boot := Some(BootAt(os, c))), os.clock(JudgedBy(c, j)))
  }

  /** Where one-shots start, a tick starts exactly the timers that are idle, configured and whose wait is over, each
      once; it spawns nothing else, finishes nothing and fixes the boot instant. */
  lemma TickExact(os: Os, c: Clocked, timers: seq<TimerDef>, services: seq<ServiceDef>, x: string)
    requires NoOverlap(c) && UniqueTimers(timers) && os.AlwaysStarts(services)
    ensures var c' := Tick(os, c, timers, services);
            && OnlySpawned(os, c, c', services)
            && c'.sched.boot == (if timers == [] then c.sched.boot else Some(BootAt(os, c)))
            && (forall j :: 0 <= j < |timers| && timers[j].name == x ==>
                  StartsLaw(os, c, c', x, StartsNow(os, c, timers, services, j)))
            && ((forall j :: 0 <= j < |timers| ==> timers[j].name != x) ==> StartsLaw(os, c, c', x, false))
  {
    if timers != [] {
      var c1 := Touch(os, c);
      var c2 := Clocked(c1.sched, c1.kernel.Advance(|timers|));
      var due := Due(os, c1.kernel, c1.sched, timers, |timers|);
      DueOnce(os, c1.kernel, c1.sched, timers, due, x);
      DueWhen(os, c1.kernel, c1.sched, timers, due, x);
      StartAllExact(os, c2, due, services, |due|, x);
      assert due[..|due|] == due;
      SpawnedLater(os, c, c2, Tick(os, c, timers, services), services);
    }
  }

  lemma DueOnce(os: Os, k: Kernel, s: Sched, timers: seq<TimerDef>, due: seq<string>, x: string)
    requires s.boot.Some? && UniqueTimers(timers) && due == Due(os, k, s, timers, |timers|)
    ensures forall i, j :: 0 <= i < j < |due| ==> due[i] != due[j]
    ensures (forall j :: 0 <= j < |timers| ==> timers[j].name != x) ==> x !in due
  {
    DueExact(os, k, s, timers, |timers|);
    forall i | 0 <= i < |due| ensures DueAmong(os, k, s, timers, |timers|, due[i]) {
    }
  }

  lemma DueWhen(os: Os, k: Kernel, s: Sched, timers: seq<TimerDef>, due: seq<string>, x: string)
    requires s.boot.Some? && UniqueTimers(timers) && due == Due(os, k, s, timers, |timers|)
    ensures forall j :: 0 <= j < |timers| && timers[j].name == x ==>
              (x in due <==> x !in s.running && WaitOver(timers[j], s, os.clock(k.t + j)))
  {
    forall j | 0 <= j < |timers| && timers[j].name == x
      ensures x in due <==> x !in s.running && WaitOver(timers[j], s, os.clock(k.t + j))
    {
      DueComplete(os, k, s, timers, |timers|, j);
    }
  }

  /** Collecting a run ends it at the reading at which it is collected; nothing else starts or finishes. */
  lemma ReapExact(os: Os, c: Clocked, pid: Pid)
    requires NoOverlap(c.(kernel := c.kernel.(children := c.kernel.children + {pid})))
    ensures var (c', handled) := Reap(os, c, pid);
            && c'.sched.starts == c.sched.starts
            && (handled <==> pid in c.sched.pending)
            && (!handled ==> c'.sched == c.sched.(boot := Some(BootAt(os, c))))
            && (handled ==>
                  var x, now := c.sched.pending[pid], os.clock(c.kernel.t);
                  && c'.sched.pending == c.sched.pending - {pid}
                  && c'.sched.lastFinished == c.sched.lastFinished[x := now]
                  && At(c'.sched.finishes, x) == At(c.sched.finishes, x) + [now]
                  && (forall y :: y != x ==> At(c'.sched.finishes, y) == At(c.sched.finishes, y))
                  && (forall y :: y in c'.sched.running <==> y in c.sched.running && y != x))
  {
  }
}
