/** How often a timer can fire, over any run of the scheduler. */
module TimerRates {
  import opened Config
  import opened Machine
  import opened Timers

  /** The delay from boot to a timer's first run. */
  function FirstDelay(t: TimerDef): Duration {
    if t.onBoot.Some? then t.onBoot.value else if t.onActive.Some? then t.onActive.value else 0
  }

  /** Run `i` started at least `OnUnitActiveSec` after run `i - 1` finished. */
  ghost predicate Gap(starts: seq<Instant>, finishes: seq<Instant>, t: TimerDef, i: nat)
    requires 0 < i < |starts| <= |finishes| + 1
  {
    t.onActive.Some? && finishes[i - 1] + t.onActive.value <= starts[i]
  }

  /** Runs that finish after they start and keep the gap. */
  ghost predicate Spaced(starts: seq<Instant>, finishes: seq<Instant>, t: TimerDef, now: Instant) {
    && |finishes| <= |starts| <= |finishes| + 1
    && (forall i :: 0 <= i < |starts| ==> starts[i] <= now)
    && (forall i :: 0 <= i < |finishes| ==> starts[i] <= finishes[i] <= now)
    && (forall i {:trigger Gap(starts, finishes, t, i)} :: 0 < i < |starts| ==> Gap(starts, finishes, t, i))
  }

  /** The runs of timer `t` so far: the first started no earlier than its delay after boot, each later one at
      least `OnUnitActiveSec` after the finish of the one before. */
  ghost predicate Paced(s: Sched, t: TimerDef, now: Instant) {
    var starts, finishes := At(s.starts, t.name), At(s.finishes, t.name);
    && Spaced(starts, finishes, t, now)
    && |starts| == |finishes| + (if t.name in s.running then 1 else 0)
    && (t.name in s.lastFinished <==> finishes != [])
    && (finishes != [] ==> s.lastFinished[t.name] == finishes[|finishes| - 1])
    && (starts != [] ==> s.boot.Some? && s.boot.value + FirstDelay(t) <= starts[0])
  }

  lemma RunsStart(starts: seq<Instant>, finishes: seq<Instant>, t: TimerDef, now: Instant)
    requires Spaced(starts, finishes, t, now) && |starts| == |finishes|
    requires starts != [] ==> t.onActive.Some? && finishes[|finishes| - 1] + t.onActive.value <= now
    ensures Spaced(starts + [now], finishes, t, now)
  {
    var more := starts + [now];
    forall i | 0 < i < |more| ensures Gap(more, finishes, t, i) {
      if i < |starts| { assert Gap(starts, finishes, t, i); }
    }
  }

  lemma RunsFinish(starts: seq<Instant>, finishes: seq<Instant>, t: TimerDef, now: Instant)
    requires Spaced(starts, finishes, t, now) && |starts| == |finishes| + 1
    ensures Spaced(starts, finishes + [now], t, now)
  {
    forall i | 0 < i < |starts| ensures Gap(starts, finishes + [now], t, i) {
      assert Gap(starts, finishes, t, i);
    }
  }

  lemma RunsLater(starts: seq<Instant>, finishes: seq<Instant>, t: TimerDef, now: Instant, later: Instant)
    requires Spaced(starts, finishes, t, now) && now <= later
    ensures Spaced(starts, finishes, t, later)
  {
  }

  ghost predicate SameFor(a: Sched, b: Sched, name: string) {
    && a.boot == b.boot
    && (name in a.running <==> name in b.running)
    && At(a.starts, name) == At(b.starts, name)
    && At(a.finishes, name) == At(b.finishes, name)
    && (name in a.lastFinished <==> name in b.lastFinished)
    && (name in a.lastFinished ==> a.lastFinished[name] == b.lastFinished[name])
  }

  lemma PacedLater(a: Sched, b: Sched, t: TimerDef, now: Instant, later: Instant)
    requires Paced(a, t, now) && now <= later && SameFor(a, b, t.name)
    ensures Paced(b, t, later)
  {
    RunsLater(At(a.starts, t.name), At(a.finishes, t.name), t, now, later);
  }

  lemma PacedStart(os: Os, c: Clocked, t: TimerDef, services: seq<ServiceDef>, due: Instant)
    requires Paced(c.sched, t, os.clock(c.kernel.t)) && c.sched.boot.Some? && os.MonotoneClock()
    requires t.name !in c.sched.running && due <= os.clock(c.kernel.t) && IsDue(t, c.sched, due)
    ensures var c' := StartOne(os, c, t.name, services); Paced(c'.sched, t, os.clock(c'.kernel.t))
  {
    var c' := StartOne(os, c, t.name, services);
    assert c.kernel.t <= c'.kernel.t;
    assert os.clock(c.kernel.t) <= os.clock(c'.kernel.t);
    var starts, starts' := At(c.sched.starts, t.name), At(c'.sched.starts, t.name);
    if starts' == starts {
      PacedLater(c.sched, c'.sched, t, os.clock(c.kernel.t), os.clock(c'.kernel.t));
    } else {
      var finishes := At(c.sched.finishes, t.name);
      assert starts' == starts + [os.clock(c.kernel.t)];
      RunsStart(starts, finishes, t, os.clock(c.kernel.t));
      RunsLater(starts', finishes, t, os.clock(c.kernel.t), os.clock(c'.kernel.t));
    }
  }

  lemma PacedOtherStart(os: Os, c: Clocked, t: TimerDef, name: string, services: seq<ServiceDef>)
    requires Paced(c.sched, t, os.clock(c.kernel.t)) && os.MonotoneClock() && name != t.name
    ensures var c' := StartOne(os, c, name, services); Paced(c'.sched, t, os.clock(c'.kernel.t))
  {
    var c' := StartOne(os, c, name, services);
    assert os.clock(c.kernel.t) <= os.clock(c'.kernel.t);
    PacedLater(c.sched, c'.sched, t, os.clock(c.kernel.t), os.clock(c'.kernel.t));
  }

  lemma {:induction false} PacedStartAll(
      os: Os, c: Clocked, t: TimerDef, names: seq<string>, services: seq<ServiceDef>, n: nat, due: Instant)
    requires os.Valid() && os.MonotoneClock() && NoOverlap(c) && c.sched.boot.Some? && n <= |names|
    requires Paced(c.sched, t, os.clock(c.kernel.t)) && due <= os.clock(c.kernel.t)
    requires forall i :: 0 <= i < |names| ==> names[i] !in c.sched.running
    requires forall i, j :: 0 <= i < j < |names| ==> names[i] != names[j]
    requires t.name in names ==> IsDue(t, c.sched, due)
    ensures var c' := StartAll(os, c, names, services, n);
            && Paced(c'.sched, t, os.clock(c'.kernel.t))
            && c'.sched.lastFinished == c.sched.lastFinished && c'.sched.boot == c.sched.boot
            && c.kernel.t <= c'.kernel.t
  {
    if n == 0 {
    } else {
      PacedStartAll(os, c, t, names, services, n - 1, due);
      var mid := StartAll(os, c, names, services, n - 1);
      StartAllNoOverlap(os, c, names, services, n - 1);
      if names[n - 1] == t.name {
        assert t.name in names && t.name !in names[..n - 1];
        assert os.clock(c.kernel.t) <= os.clock(mid.kernel.t);
        PacedStart(os, mid, t, services, due);
      } else {
        PacedOtherStart(os, mid, t, names[n - 1], services);
      }
    }
  }

  lemma PacedTouch(os: Os, c: Clocked, t: TimerDef)
    requires Paced(c.sched, t, os.clock(c.kernel.t)) && os.MonotoneClock() && NoOverlap(c)
    ensures Paced(Touch(os, c).sched, t, os.clock(Touch(os, c).kernel.t))
  {
    assert os.clock(c.kernel.t) <= os.clock(Touch(os, c).kernel.t);
    if c.sched.boot.None? {
      assert At(c.sched.starts, t.name) == [];
    }
  }

  /** A tick keeps the pace of every timer that its list does not redefine. */
  lemma TickPaced(os: Os, c: Clocked, t: TimerDef, timers: seq<TimerDef>, services: seq<ServiceDef>)
    requires os.Valid() && os.MonotoneClock() && NoOverlap(c) && UniqueTimers(timers)
    requires Paced(c.sched, t, os.clock(c.kernel.t))
    requires forall u :: u in timers && u.name == t.name ==> u == t
    ensures var c' := Tick(os, c, timers, services); Paced(c'.sched, t, os.clock(c'.kernel.t))
  {
    if timers != [] {
      PacedTouch(os, c, t);
      var c1 := Touch(os, c);
      var c2 := Clocked(c1.sched, c1.kernel.Advance(|timers|));
      var due := Due(os, c1.kernel, c1.sched, timers, |timers|);
      DueExact(os, c1.kernel, c1.sched, timers, |timers|);
      assert os.clock(c1.kernel.t) <= os.clock(c2.kernel.t);
      PacedLater(c1.sched, c2.sched, t, os.clock(c1.kernel.t), os.clock(c2.kernel.t));
      var at := DueReading(os, c1, t, timers, due);
      PacedStartAll(os, c2, t, due, services, |due|, at);
    }
  }

  /** The reading at which the timer, if it is in the list, was found due. */
  lemma DueReading(os: Os, c: Clocked, t: TimerDef, timers: seq<TimerDef>, due: seq<string>) returns (at: Instant)
    requires c.sched.boot.Some? && os.MonotoneClock() && DueList(os, c.kernel, c.sched, timers, |timers|, due)
    requires forall u :: u in timers && u.name == t.name ==> u == t
    ensures at <= os.clock(c.kernel.t + |timers|)
    ensures t.name in due ==> IsDue(t, c.sched, at)
    ensures forall i :: 0 <= i < |due| ==> due[i] !in c.sched.running
  {
    forall i | 0 <= i < |due| ensures due[i] !in c.sched.running {
      assert DueAmong(os, c.kernel, c.sched, timers, |timers|, due[i]);
    }
    at := os.clock(c.kernel.t + |timers|);
    if t.name in due {
      var i :| 0 <= i < |due| && due[i] == t.name;
      assert DueAmong(os, c.kernel, c.sched, timers, |timers|, due[i]);
      var j :| 0 <= j < |timers| && timers[j].name == t.name && IsDue(timers[j], c.sched, os.clock(c.kernel.t + j));
      assert timers[j] in timers;
      at := os.clock(c.kernel.t + j);
    }
  }

  lemma ReapPaced(os: Os, c: Clocked, t: TimerDef, pid: Pid)
    requires os.MonotoneClock() && Paced(c.sched, t, os.clock(c.kernel.t))
    requires NoOverlap(c.(kernel := c.kernel.(children := c.kernel.children + {pid})))
    ensures var c' := Reap(os, c, pid).0; Paced(c'.sched, t, os.clock(c'.kernel.t))
  {
    PacedTouch(os, c.(kernel := c.kernel.(children := c.kernel.children + {pid})), t);
    var c1, c' := Touch(os, c), Reap(os, c, pid).0;
    assert os.clock(c1.kernel.t) <= os.clock(c'.kernel.t);
    if pid in c.sched.pending {
      var name := c.sched.pending[pid];
      assert name in Busy(c.sched.pending);
      if name != t.name {
        PacedLater(c1.sched, c'.sched, t, os.clock(c1.kernel.t), os.clock(c'.kernel.t));
      } else {
        var starts, finishes, now := At(c1.sched.starts, name), At(c1.sched.finishes, name), os.clock(c1.kernel.t);
        assert At(c'.sched.finishes, name) == finishes + [now];
        RunsFinish(starts, finishes, t, now);
        RunsLater(starts, finishes + [now], t, now, os.clock(c'.kernel.t));
      }
    }
  }

  // ---------------------------------------------------------------- the bound

  lemma {:induction false} StartsSpaced(s: Sched, t: TimerDef, now: Instant, k: nat)
    requires Paced(s, t, now) && t.onActive.Some? && k < |At(s.starts, t.name)|
    ensures At(s.starts, t.name)[k] >= s.boot.value + FirstDelay(t) + k * t.onActive.value
  {
    if k == 0 {
    } else {
      StartsSpaced(s, t, now, k - 1);
      var starts, finishes := At(s.starts, t.name), At(s.finishes, t.name);
      assert starts[k - 1] <= finishes[k - 1] && Gap(starts, finishes, t, k);
      assert k * t.onActive.value == (k - 1) * t.onActive.value + t.onActive.value;
    }
  }

  /** By any time T after boot plus the first delay a repeating timer has started at most
      1 + (T - boot - delay) / interval times; one that does not repeat has started at most once. */
  lemma RateBound(s: Sched, t: TimerDef, now: Instant, T: Instant, n: nat)
    requires Paced(s, t, now) && n <= |At(s.starts, t.name)|
    requires n > 0 ==> At(s.starts, t.name)[n - 1] <= T
    requires s.boot.Some? && s.boot.value + FirstDelay(t) <= T
    ensures t.onActive.Some? && t.onActive.value > 0 ==>
              n <= 1 + (T - s.boot.value - FirstDelay(t)) / t.onActive.value
    ensures t.onActive.None? ==> |At(s.starts, t.name)| <= 1
  {
    assert |At(s.starts, t.name)| > 1 ==> Gap(At(s.starts, t.name), At(s.finishes, t.name), t, 1);
    if t.onActive.Some? && t.onActive.value > 0 && n > 0 {
      StartsSpaced(s, t, now, n - 1);
      DivideBound(n - 1, t.onActive.value, T - s.boot.value - FirstDelay(t));
    }
  }

  lemma DivideBound(k: nat, d: nat, x: int)
    requires d > 0 && k * d <= x
    ensures k <= x / d
  {
    var q := x / d;
    assert x == q * d + x % d;
    assert q < k ==> (q + 1) * d <= k * d;
    assert (q + 1) * d == q * d + d;
  }

  // ---------------------------------------------------------------- due timers do start

  /** An idle timer's wait is over: its first delay since boot, or its interval since the last finish. */
  ghost predicate WaitOver(t: TimerDef, s: Sched, now: Instant)
    requires s.boot.Some?
  {
    if t.name in s.lastFinished then t.onActive.Some? && s.lastFinished[t.name] + t.onActive.value <= now
    else (t.onBoot.Some? || t.onActive.Some?) && s.boot.value + FirstDelay(t) <= now
  }

  lemma {:induction false} DueComplete(os: Os, k: Kernel, s: Sched, timers: seq<TimerDef>, n: nat, j: nat)
    requires j < n <= |timers| && s.boot.Some? && UniqueTimers(timers)
    ensures timers[j].name in Due(os, k, s, timers, n) <==>
            timers[j].name !in s.running && WaitOver(timers[j], s, os.clock(k.t + j))
  {
    DueExact(os, k, s, timers, n - 1);
    if j < n - 1 {
      DueComplete(os, k, s, timers, n - 1, j);
      assert timers[n - 1].name != timers[j].name;
    } else {
      var init := Due(os, k, s, timers, n - 1);
      assert k.t + n - 1 == k.t + j;
      forall i | 0 <= i < |init| ensures init[i] != timers[j].name {
        assert DueAmong(os, k, s, timers, n - 1, init[i]);
      }
    }
  }

  lemma {:induction false} StartAllRuns(
      os: Os, c: Clocked, names: seq<string>, services: seq<ServiceDef>, n: nat, x: string)
    requires n <= |names| && os.AlwaysStarts(services)
    ensures x in StartAll(os, c, names, services, n).sched.running <==>
            x in c.sched.running || (x in names[..n] && Lookup(services, x).Some?)
  {
    if n == 0 {
    } else {
      StartAllRuns(os, c, names, services, n - 1, x);
      assert names[..n] == names[..n - 1] + [names[n - 1]];
      LookupListed(services, names[n - 1]);
    }
  }

  lemma {:induction false} LookupListed(services: seq<ServiceDef>, name: string)
    ensures Lookup(services, name).Some? ==> Lookup(services, name).value in services
  {
    if services == [] {
    } else {
      LookupListed(services[1..], name);
    }
  }

  /** Where one-shots start, after a tick a timer runs exactly if it ran before, or its wait was over at its reading
      of the clock and its service is configured. */
  lemma TickStartsDue(os: Os, c: Clocked, timers: seq<TimerDef>, services: seq<ServiceDef>, j: nat)
    requires NoOverlap(c) && UniqueTimers(timers) && j < |timers| && os.AlwaysStarts(services)
    ensures var c1 := Touch(os, c);
            timers[j].name in Tick(os, c, timers, services).sched.running <==>
              || timers[j].name in c.sched.running
              || (WaitOver(timers[j], c1.sched, os.clock(c1.kernel.t + j)) && Lookup(services, timers[j].name).Some?)
  {
    var c1 := Touch(os, c);
    var due := Due(os, c1.kernel, c1.sched, timers, |timers|);
    DueComplete(os, c1.kernel, c1.sched, timers, |timers|, j);
    StartAllRuns(os, Clocked(c1.sched, c1.kernel.Advance(|timers|)), due, services, |due|, timers[j].name);
    assert due[..|due|] == due;
  }
}
