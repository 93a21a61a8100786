/** What the datagrams of a run say about each instance, and the watchdog verdicts in those terms. */
module Watchdogs {
  import opened Config
  import opened Machine
  import opened Supervision
  import opened Targets
  import opened Timers
  import opened EventLoop
  import opened Runs
  import opened Rollback
  import opened Guarantees
  import opened Entries

  /** How many of the first `n` datagrams say WATCHDOG=1; each takes one reading of the clock. */
  function Pings(ds: seq<Datagram>, n: nat): nat
    requires n <= |ds|
  {
    if n == 0 then 0 else Pings(ds, n - 1) + if ds[n - 1].watchdog then 1 else 0
  }

  /** At which reading the latest WATCHDOG=1 of `pid` among the first `n` datagrams is handled, if the first reading is
      number `t`. */
  function LatestAmong(t: nat, ds: seq<Datagram>, n: nat, pid: Pid): Option<nat>
    requires n <= |ds|
  {
    if n == 0 then None
    else if ds[n - 1].watchdog && ds[n - 1].pid == pid then Some(t + Pings(ds, n - 1))
    else LatestAmong(t, ds, n - 1, pid)
  }

  /** At which reading the latest WATCHDOG=1 of `pid` in the first `n` turns is handled. */
  ghost function LatestPing(os: Os, trace: seq<Loop>, inputs: seq<Input>, n: nat, pid: Pid): Option<nat>
    requires n <= |inputs| && |trace| == |inputs| + 1
  {
    if n == 0 then None
    else
      var ds := inputs[n - 1].datagrams;
      var here := LatestAmong(Prepare(os, trace[n - 1], inputs[n - 1]).sup.kernel.t, ds, |ds|, pid);
      if here.Some? then here else LatestPing(os, trace, inputs, n - 1, pid)
  }

  /** What an instance sent since it was started, given the latest datagram of its pid: pids are used again. */
  function SentBy(os: Os, latest: Option<nat>, e: Supervised): Option<Instant> {
    if latest.Some? && latest.value > e.born then Some(os.clock(latest.value)) else None
  }

  // ---------------------------------------------------------------- one turn

  /** Handling a WATCHDOG=1 records the reading under the name of its socket and for the instance that sent it, and
      nothing else; handling a READY=1 records the name. */
  lemma ReceiveExact(os: Os, s: SupState, d: Datagram)
    ensures var s', now := Receive(os, s, d), os.clock(s.kernel.t);
            && s'.services.Keys == s.services.Keys
            && (forall p :: p in s.services ==>
                  s'.services[p] ==
                  if d.watchdog && p == d.pid then s.services[p].(heard := Some(now)) else s.services[p])
            && (forall x :: x in s'.notify.pings <==> x in s.notify.pings || (d.watchdog && x == d.name))
            && (forall x :: x in s'.notify.pings ==>
                  s'.notify.pings[x] == if d.watchdog && x == d.name then now else s.notify.pings[x])
            && (forall x :: x in s'.notify.ready <==> x in s.notify.ready || (!d.watchdog && x == d.name))
  {
  }

  /** After the first `n` datagrams: each entry has heard the latest of its own, and the clock was read once for every
      WATCHDOG=1. */
  lemma {:induction false} ReceiveAllExact(os: Os, s: SupState, ds: seq<Datagram>, n: nat)
    requires n <= |ds|
    ensures var s' := ReceiveAll(os, s, ds, n);
            && s'.kernel.t == s.kernel.t + Pings(ds, n)
            && s'.services.Keys == s.services.Keys
            && forall p :: p in s.services ==>
                 s'.services[p] ==
                 var here := LatestAmong(s.kernel.t, ds, n, p);
                 if here.Some? then s.services[p].(heard := Some(os.clock(here.value))) else s.services[p]
  {
    if n == 0 {
    } else {
      ReceiveAllExact(os, s, ds, n - 1);
      ReceiveExact(os, ReceiveAll(os, s, ds, n - 1), ds[n - 1]);
    }
  }

  /** Ready is who was or says so. */
  lemma {:induction false} ReadyExact(os: Os, s: SupState, ds: seq<Datagram>, n: nat, x: string)
    requires n <= |ds|
    ensures x in ReceiveAll(os, s, ds, n).notify.ready <==>
            x in s.notify.ready || exists j :: 0 <= j < n && !ds[j].watchdog && ds[j].name == x
  {
    if n == 0 {
    } else {
      ReadyExact(os, s, ds, n - 1, x);
      ReceiveExact(os, ReceiveAll(os, s, ds, n - 1), ds[n - 1]);
    }
  }

  lemma {:induction false} LatestBound(t: nat, ds: seq<Datagram>, n: nat, pid: Pid)
    requires n <= |ds|
    ensures var here := LatestAmong(t, ds, n, pid); here.Some? ==> t <= here.value < t + Pings(ds, n)
  {
    if n == 0 {
    } else {
      LatestBound(t, ds, n - 1, pid);
    }
  }

  // ---------------------------------------------------------------- whole runs

  /** Every instance was started before now, has heard exactly what it sent since, and no datagram is from later. */
  ghost predicate HeardAll(os: Os, s: SupState, latest: Pid -> Option<nat>) {
    && (forall p :: p in s.services ==>
          && s.services[p].born < s.kernel.t && s.services[p].startedAt == os.clock(s.services[p].born)
          && s.services[p].heard == SentBy(os, latest(p), s.services[p]))
    && (forall p :: latest(p).Some? ==> latest(p).value < s.kernel.t)
  }

  lemma HeardGrown(os: Os, a: SupState, b: SupState, afresh: bool, latest: Pid -> Option<nat>)
    requires Grown(os, a, b, afresh) && HeardAll(os, a, latest)
    ensures HeardAll(os, b, latest)
  {
  }

  lemma HeardWait(os: Os, st: Loop, inp: Input, latest: Pid -> Option<nat>, later: Pid -> Option<nat>)
    requires HeardAll(os, st.sup, latest)
    requires forall p :: later(p) ==
                         var here := LatestAmong(st.sup.kernel.t, inp.datagrams, |inp.datagrams|, p);
                         if here.Some? then here else latest(p)
    ensures HeardAll(os, Wait(os, st, inp).sup, later)
  {
    var s := st.sup.(kernel := Collect(st.sup.kernel, inp.wait));
    ReceiveAllExact(os, s, inp.datagrams, |inp.datagrams|);
    forall p ensures var here := LatestAmong(st.sup.kernel.t, inp.datagrams, |inp.datagrams|, p);
                     here.Some? ==> st.sup.kernel.t <= here.value < Wait(os, st, inp).sup.kernel.t
    {
      LatestBound(st.sup.kernel.t, inp.datagrams, |inp.datagrams|, p);
    }
  }

  ghost function PingsBefore(os: Os, trace: seq<Loop>, inputs: seq<Input>, n: nat): Pid -> Option<nat>
    requires n <= |inputs| && |trace| == |inputs| + 1
  {
    (p: Pid) => LatestPing(os, trace, inputs, n, p)
  }

  /** Up to the watchdog check of turn `n` every tracked instance has heard exactly what it sent. */
  lemma HeardAtCheck(os: Os, trace: seq<Loop>, inputs: seq<Input>, n: nat)
    requires n < |inputs| && |trace| == |inputs| + 1
    requires HeardAll(os, trace[n].sup, PingsBefore(os, trace, inputs, n))
    ensures HeardAll(os, Wait(os, Prepare(os, trace[n], inputs[n]), inputs[n]).sup,
                     PingsBefore(os, trace, inputs, n + 1))
  {
    PrepareGrown(os, trace[n], inputs[n]);
    var prepared := Prepare(os, trace[n], inputs[n]);
    HeardGrown(os, trace[n].sup, prepared.sup, true, PingsBefore(os, trace, inputs, n));
    HeardWait(os, prepared, inputs[n], PingsBefore(os, trace, inputs, n), PingsBefore(os, trace, inputs, n + 1));
  }

  lemma HeardNext(os: Os, trace: seq<Loop>, inputs: seq<Input>, n: nat, at: Loop)
    requires n < |inputs| && |trace| == |inputs| + 1
    requires HeardAll(os, Wait(os, Prepare(os, trace[n], inputs[n]), inputs[n]).sup,
                      PingsBefore(os, trace, inputs, n + 1))
    requires at == BeforeDispatch(os, trace[n], inputs[n])
    requires trace[n + 1] == Dispatch(os, at, inputs[n].wait, inputs[n].graceWaits)
    ensures HeardAll(os, trace[n + 1].sup, PingsBefore(os, trace, inputs, n + 1))
  {
    DispatchGrown(os, at, inputs[n].wait, inputs[n].graceWaits);
    HeardGrown(os, at.sup, trace[n + 1].sup, false, PingsBefore(os, trace, inputs, n + 1));
  }

  lemma {:induction false} RunHeard(os: Os, trace: seq<Loop>, inputs: seq<Input>, n: nat)
    requires IsRun(os, trace, inputs) && n <= |inputs| && BootedAlready(os, trace[0].sup) && !trace[n].stopped
    ensures HeardAll(os, trace[n].sup, PingsBefore(os, trace, inputs, n))
  {
    if n == 0 {
    } else {
      StepTo(os, trace, inputs, n);
      RunHeard(os, trace, inputs, n - 1);
      HeardAtCheck(os, trace, inputs, n - 1);
      HeardNext(os, trace, inputs, n - 1, BeforeDispatch(os, trace[n - 1], inputs[n - 1]));
    }
  }

  /** As boot leaves it: every instance was started at a reading before now and sent nothing yet. */
  ghost predicate BootedAlready(os: Os, s: SupState) {
    forall p :: p in s.services ==> Newborn(os, 0, s.kernel.t, s.services[p])
  }

  lemma BootedIsBootedAlready(os: Os, cfg: Configuration, timers: seq<TimerDef>)
    ensures BootedAlready(os, Booted(os, cfg, timers).sup)
  {
    BootFresh(os, SupState(map[], Notify({}, map[]), Kernel(0, {})), ServicesIn(cfg.services, cfg.defaultTarget));
  }

  /** When the instance was last known to be alive at the watchdog check of turn `n`: at the latest WATCHDOG=1 that its
      pid sent since it was started, or when it was started. */
  ghost function LastSign(os: Os, trace: seq<Loop>, inputs: seq<Input>, n: nat, pid: Pid, born: nat): Instant
    requires n < |inputs| && |trace| == |inputs| + 1
  {
    var latest := LatestPing(os, trace, inputs, n + 1, pid);
    os.clock(if latest.Some? && latest.value > born then latest.value else born)
  }

  /** In every run from boot in which datagrams come from live instances: a turn kills exactly the watched services from
      which there was no sign for longer than their timeout. The one exception is as in `WatchdogsExact`. */
  lemma WatchdogsByPings(os: Os, trace: seq<Loop>, inputs: seq<Input>, n: nat, pid: Pid)
    requires GoodRun(os, trace, inputs, true) && n < |inputs| && BootedAlready(os, trace[0].sup) && !trace[n].stopped
    requires var services := Wait(os, Prepare(os, trace[n], inputs[n]), inputs[n]).sup.services;
             && pid in services
             && (services[pid].def.name !in Exempt(os) || services[pid].def.watchdogTimeout.None?)
    ensures var s := Wait(os, Prepare(os, trace[n], inputs[n]), inputs[n]).sup;
            var e, now := s.services[pid], os.clock(s.kernel.t);
            pid in WatchdogKills(os, trace[n], inputs[n]) <==>
              && e.def.watchdogTimeout.Some?
              && now - LastSign(os, trace, inputs, n, pid, e.born) > e.def.watchdogTimeout.value
  {
    RunHeard(os, trace, inputs, n);
    HeardAtCheck(os, trace, inputs, n);
    WatchdogsExact(os, trace, inputs, n, pid);
    var s := Wait(os, Prepare(os, trace[n], inputs[n]), inputs[n]).sup;
    assert s.services[pid].heard == SentBy(os, LatestPing(os, trace, inputs, n + 1, pid), s.services[pid]);
  }
}
